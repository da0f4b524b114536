# Clan-war season statistics — a Dafny model

This project models the statistics core of a small serverless function. The
function reads a Clash Royale clan's roster and war log and ranks the clan's
members two ways:

- **`donations_ranking`**: the roster, sorted in place by descending
  donations.
- **`war_ranking`**: one entry per season of the war log. Each entry ranks
  the season's participants by a score computed from their summed war
  results.

The two fetched payloads are inputs to the model. Its modules follow the
stages of the pipeline:

- `OrderedMaps` (`ordered_maps.dfy`): the insertion-ordered JavaScript `Map`.
  It is a key sequence plus a Dafny `map`. `set` keeps an existing key's
  position and appends a new key. `Dedup` is the key order a sequence of
  `set`s produces.
- `StableSort` (`stable_sort.dfy`): `Array.prototype.sort` with a
  descending three-way comparator. It is stable, as ECMAScript 2019 and later
  require. `SortDesc` is the reference definition: an insertion sort that
  moves an element only past strictly smaller keys. `SortInPlace` is the same
  algorithm on an array.
- `ClanData` (`clan_data.dfy`): the payload records and the records the
  pipeline produces.
- `SeasonGrouping` (`season_grouping.dfy`): the war log grouped by
  `seasonNumber`.
- `ParticipantTotals` (`participant_totals.dfy`): the per-season fold of
  participant results into the `members` map. Each tag's record is replaced
  by an updated copy.
- `SeasonScoring` (`season_scoring.dfy`): `Array.from(members.values())`, the
  score written into each record, and the sort by score.
- `ClanWarStatistics` (`clan_war_stats.dfy`): the roster sort, the season loop
  and the assembly of the statistics object.
- `Scenarios` (`scenarios.dfy`): small worked examples.

The definitions that transcribe source functions directly, and carry no
contract of their own, are characterised by the lemmas in the table below:

- `OrderedMaps.Set` is `Map.set` (index.js:116, 192). `OrderedMaps.GetOr` is
  `get(k) || d` (index.js:114, 190). `OrderedMaps.Values` is
  `Array.from(m.values())` (index.js:158).
- `SeasonGrouping.DefaultSeasonInitialisation` is index.js:103-111.
  `SeasonGrouping.AddWar` is one iteration of index.js:114-116.
- `ParticipantTotals.DefaultParticipantSeasonData` is index.js:121-132.
  `ParticipantTotals.AddParticipantWarInformation` is index.js:134-146.
  `ParticipantTotals.AddMissingParticipant` is the identity at
  index.js:183-185. `ParticipantTotals.AddResult` is one iteration of
  index.js:190-192, and `ParticipantTotals.Accumulate` is the fold of it.
- `SeasonScoring.Score` is the formula at index.js:160-164.
- `ClanWarStatistics.WarRanking` and `ClanWarStatistics.ClanWarStatsOf` are
  the reference definitions of the object built at index.js:15-26.

Imperative parts of the source are methods proved equal to specification
functions. Properties are then proved about those functions:

- the grouping loop (`GroupBySeason`);
- the nested accumulation loops (`AccumulateSeason`, `AccumulateWar`);
- the in-place scoring (`EvaluateParticipantScore`);
- the in-place sorts (`SortInPlace`);
- the season loop (`RankSeasons`);
- the assembly loop (`AssembleStats`).

## How `warDayNotPlayed` is computed

The documented intent is to count the wars in which a participant played no
battle. The code instead computes
`(previous.warDayNotPlayed + participant.battlesPlayed) == 0 ? 1 : 0`, because
`+` binds tighter than `==`, which binds tighter than `?:`. The model follows
the code. As a result:

- The value is always 0 or 1.
- It is 1 exactly when the run of battle-less results at the end of the
  tag's own results in the season has odd length
  (`WarDayFlagIsTrailingParity`). Only wars the tag appears in count. A war
  the tag is absent from leaves the flag unchanged.
- Two battle-less results in a row for the same tag reset it to 0
  (`WarDayFlagMissesSecondIdleWar`, `Scenarios.TwoIdleWarsScoreZero`). A
  per-war count would give 2.
- `IdleWars` is the documented count. `WarDayFlagBounds` relates the two:
  the flag never exceeds the count and is 0 when the count is 0.

Ties in both rankings keep their input order, which for a season is the
`members` map's insertion order. So insertion order matters for the output,
and the model keeps it.

## Model

| member | source | states |
|---|---|---|
| OrderedMaps.Empty | index.js:100 | A new `Map` is well-formed and has no keys. |
| OrderedMaps.SetValid | index.js:116 | `set` on a well-formed map keeps its keys distinct and in step with its entries. |
| OrderedMaps.ValuesSetNew | index.js:158 | After `set` of a new key, `Array.from(m.values())` is the old values followed by the new value. |
| OrderedMaps.ValuesSetExisting | index.js:158 | After `set` of a present key, `Array.from(m.values())` has the same length. Only the value at that key's position changes, and nothing moves. |
| OrderedMaps.Dedup | index.js:113-117 | The key order of a `Map` after a sequence of `set`s has no repetition and holds exactly the keys set. |
| OrderedMaps.DedupFirstOccurrenceOrder | index.js:113-117 | Of two keys, the one first set earlier comes first in the key order. |
| StableSort.CompareDesc | index.js:148-154 | The descending three-way comparator is -1, 0 or 1. It is positive exactly when the first key is smaller and negative exactly when it is larger. |
| StableSort.SortDesc | index.js:198 | Sorting keeps the length and is a permutation of its input. |
| StableSort.SortDescSorted | index.js:198 | The sorted sequence is non-increasing in the key. |
| StableSort.SortDescStable | index.js:198 | For every key value, the elements with that key keep their input order. |
| StableSort.SortDescUnique | index.js:198 | Any non-increasing rearrangement that keeps every tie group in input order equals `SortDesc`, so the model fixes the output of every stable sort. |
| StableSort.SortDescProjectPerm | index.js:198 | Sorting also permutes any projection of the elements (used for tags). |
| StableSort.SortInPlace | index.js:58 | The in-place insertion sort leaves the array equal to `SortDesc` of its old contents. |
| SeasonGrouping.WarsOfSeason | index.js:113-117 | A war is in a season's group exactly when it is in the log with that season number. |
| SeasonGrouping.AddWarGroups | index.js:114-116 | One loop step turns the grouping of a log prefix into the grouping of the prefix extended by one war. |
| SeasonGrouping.GroupBySeason | index.js:102-118 | The loop yields a well-formed map. Its keys are the season numbers in order of first occurrence. Each key's group holds that season's wars in log order. |
| SeasonGrouping.GroupSizesSumToLength | index.js:113-117 | The group sizes add up to the length of the log, so no war is dropped or duplicated. |
| SeasonGrouping.WarInItsSeason | index.js:113-116 | Every war's season number is a key, and the war is in that key's group. |
| ParticipantTotals.SummarySingle | index.js:121-146 | A tag's first result turns the zeroed default record into the totals of that one result. |
| ParticipantTotals.SummaryAppend | index.js:134-146 | `addParticipantWarInformation` extends a tag's totals by one more result: the sums grow by its counters, and the flag follows the code's rule. |
| ParticipantTotals.EntryStep | index.js:190-192 | After one result, every tag's record is still that tag's totals. |
| ParticipantTotals.TotalsStep | index.js:190-192 | One fold step keeps the map well-formed, its keys in first-occurrence order and every entry equal to its tag's totals. |
| ParticipantTotals.AccumulateTotals | index.js:187-193 | The fold gives one entry per distinct tag, in first-occurrence order. Each entry holds the name and tag of the tag's first result, the summed cards, battles and wins, the `warDayNotPlayed` flag and zero placeholders. |
| ParticipantTotals.AccumulateWar | index.js:189-193 | The participant loop extends the map of the earlier results by one war's results, in order. |
| ParticipantTotals.AccumulateSeason | index.js:187-195 | The war and participant loops of one season build the fold of all its results, with the totals above. `addMissingParticipant` changes nothing. |
| ParticipantTotals.WarDayFlagIsTrailingParity | index.js:141 | The flag is 1 exactly when the tag's own results in the season end with an odd-length run of battle-less results. Wars the tag is absent from do not count. |
| ParticipantTotals.WarDayFlagBounds | index.js:141 | The flag is at most 1 and at most the number of battle-less wars. It is 0 when every war had a battle. |
| ParticipantTotals.WarDayFlagMissesSecondIdleWar | index.js:141 | Two battle-less results for a tag count 2 idle wars but leave the flag at 0. |
| SeasonScoring.CompareScore | index.js:148-154 | `compareScore` orders by descending score and is the comparator the season sort uses. |
| SeasonScoring.EvaluateParticipantScore | index.js:157-169 | The array of the map's values gets `cardsEarned + 500*wins - 1500*warDayNotPlayed - 250*collectionBattleNotPlayed - 100*warNotPlayed` written into each record's score, in key order. |
| SeasonScoring.RankSeason | index.js:188-198 | One pass of the season loop yields the scored member records sorted by score. |
| SeasonScoring.RankingSortedStable | index.js:198 | A season ranking is non-increasing in score and a permutation of the scored member records. Equal scores keep the map's insertion order. |
| SeasonScoring.ScoredMember | index.js:158-165 | The i-th scored record is the totals of the i-th distinct tag met, scored. |
| SeasonScoring.ScoredMembersTags | index.js:158 | The scored records carry the distinct tags, in first-occurrence order. |
| SeasonScoring.RankingOneEntryPerTag | index.js:187-194 | Every tag met in the season's wars has exactly one ranking entry. Any other tag, such as a roster member who fought none of the season's wars, has none, because `addMissingParticipant` adds nobody. |
| SeasonScoring.RankingEntries | index.js:159-165 | Every ranking entry holds its tag's summed counters and first name, a flag of at most 1 and zero placeholders. Its score is `cards + 500*wins - 1500*flag`, with no clamping. |
| ClanWarStatistics.CompareDonations | index.js:209-215 | `compareDonations` orders by descending donations and is the comparator the roster sort uses. |
| ClanWarStatistics.RankSeasons | index.js:187-199 | The season loop keeps the map's keys and order, and attaches to each season its ranking. |
| ClanWarStatistics.AssembleStats | index.js:15-26 | The statistics hold the roster and one `{season, ranking}` entry per map key, in map order. |
| ClanWarStatistics.RetrieveClanWarStats | index.js:10-27 | The roster array is left sorted by descending donations. The statistics are `ClanWarStatsOf` of the original roster and the log. |
| ClanWarStatistics.RankedGroupsAreWarRanking | index.js:19-24 | Ranking every group of the log's grouping, in map order, gives `war_ranking`. |
| ClanWarStatistics.DonationsRankingSortedStable | index.js:58 | `donations_ranking` is non-increasing in donations and a permutation of the roster. Equal donations keep roster order. |
| ClanWarStatistics.WarRankingOnePerSeason | index.js:19-24 | `war_ranking` lists every season number of the log exactly once and nothing else. An empty log gives an empty `war_ranking`. |
| ClanWarStatistics.WarRankingFirstOccurrenceOrder | index.js:113-117 | Seasons appear in `war_ranking` in the order their first war appears in the log. |
| ClanWarStatistics.WarRankingEntry | index.js:19-24 | Each `war_ranking` entry ranks exactly its season's wars, with one entry per tag met in them. |
| Scenarios.OneWarTwoParticipants | index.js:134-198 | In one war, a player with 100 cards, 3 battles and 2 wins scores 1100. A player with 50 cards and no battle is flagged and scores -1450. The first ranks above the second. |
| Scenarios.TwoIdleWarsScoreZero | index.js:141 | A player with no battle and no card in two wars of a season scores 0, not -3000. |
| Scenarios.SameTagTwoWarsSummed | index.js:134-140 | A tag with 20 then 30 cards in two wars of a season has a single entry with 50 cards and the summed battles and wins. |
| Scenarios.RosterByDonations | index.js:58 | A roster with 10 then 50 donations is ranked with the 50-donation member first. |

## Left out

- Fetching the roster and the war log over HTTP is left out: the request options, `config.json` and the `auth` header (index.js:1-2, 33-52, 71-88). Both payloads are plain inputs.
- The `.catch` handlers are left out (index.js:47-50, 85-88). One returns the error object as if it were the roster; the other logs and yields `undefined`. These are transport failures, not aggregation.
- The Lambda entry points `clanInfos` and `clanWarStats` are left out (index.js:218-247), together with the CORS response envelope and `JSON.stringify`. The `clanInfos` entry point's own roster sort (line 220) is the same sort as line 58.
- `console.log` calls and the `playerMap` that `afficherClanInfos` builds and discards are left out (index.js:56-66, 82, 86). They have no observable effect. Only the in-place roster sort at line 58 is kept.
- `async`/`await` is left out. The pipeline is one sequential call.
- JavaScript numbers are IEEE doubles; the model uses unbounded integers. Payload counters (`cardsEarned`, `battlesPlayed`, `wins`) are natural numbers; donations and scores are integers. Missing or non-numeric payload fields, which would make the sums `NaN`, are not modelled.
- Aliasing between a season's `members` map and its `memberArray` is not modelled. In the source, writing `score` into `memberArray` elements also changes the records in the map. The map is not part of the output, so the model writes scores into the array only.
- The `ranking: null` and `members` fields that `defaultSeasonInitialisation` adds to a season object are not modelled (index.js:103-111). A season's `members` map is built by `AccumulateSeason` from an empty map, and its sorted `memberArray` is attached by `RankSeasons`.
- `defaultParticipantSeasonData` omits `warNotPlayed`, which is `undefined` in JavaScript (index.js:121-132). The model's default record has 0 there. The default record is always passed through `addParticipantWarInformation`, which sets the field to 0, before it is stored, so no output record differs.
