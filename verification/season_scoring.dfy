/**
 * Scoring and ranking of one season: the season's `members` map is turned
 * into an array of its values, every record gets its score written in, and
 * the array is sorted by descending score, ties keeping map order.
 */
module SeasonScoring {
  import opened OrderedMaps
  import opened StableSort
  import opened ClanData
  import opened ParticipantTotals

  /**
   * The score of a season record: one point per card, 500 per win, minus
   * 1500 per `warDayNotPlayed`, 250 per `collectionBattleNotPlayed` and 100
   * per `warNotPlayed`; no clamping.
   */
  function Score(m: ParticipantSeasonData): int
  {
    m.cardsEarned * 1
    + m.wins * 500
    - m.warDayNotPlayed * 1500
    - m.collectionBattleNotPlayed * 250
    - m.warNotPlayed * 100
  }

  /** The record with its score filled in. */
  function WithScore(m: ParticipantSeasonData): ParticipantSeasonData
  {
    m.(score := Score(m))
  }

  /** Every record of `vals` with its score filled in, in the same order. */
  function Scored(vals: seq<ParticipantSeasonData>): seq<ParticipantSeasonData>
  {
    seq(|vals|, i requires 0 <= i < |vals| => WithScore(vals[i]))
  }

  /** The sort key of the season ranking. */
  function ScoreKey(m: ParticipantSeasonData): int
  {
    m.score
  }

  /** The tag of a season record. */
  function TagOf(m: ParticipantSeasonData): string
  {
    m.tag
  }

  /**
   * The season ranking's comparator: positive when `a` scores less than `b`
   * (so `a` goes after `b`), negative when it scores more, 0 on a tie.
   */
  function CompareScore(a: ParticipantSeasonData, b: ParticipantSeasonData): (r: int)
    ensures r > 0 <==> ScoreKey(a) < ScoreKey(b)
    ensures r < 0 <==> ScoreKey(a) > ScoreKey(b)
    ensures r == CompareDesc(ScoreKey(a), ScoreKey(b))
  {
    if a.score < b.score then 1
    else if a.score > b.score then -1
    else 0
  }

  /** The season's member records, scored, in map (first-occurrence) order. */
  function ScoredMembers(wars: seq<WarRecord>): seq<ParticipantSeasonData>
  {
    AccumulateTotals(Flatten(wars));
    Scored(Values(Accumulate(Flatten(wars))))
  }

  /** The `memberArray` of a season after scoring and sorting. */
  function SeasonRankingOf(wars: seq<WarRecord>): seq<ParticipantSeasonData>
  {
    SortDesc(ScoredMembers(wars), ScoreKey)
  }

  /**
   * `Array.from(season.members.values())`, then every element's score
   * written in place.
   */
  method EvaluateParticipantScore(members: OMap<string, ParticipantSeasonData>)
    returns (memberArray: array<ParticipantSeasonData>)
    requires Valid(members)
    ensures fresh(memberArray)
    ensures memberArray[..] == Scored(Values(members))
  {
    var values := Values(members);
    memberArray := new ParticipantSeasonData[|values|](i requires 0 <= i < |values| => values[i]);
    for i := 0 to memberArray.Length
      invariant forall j :: 0 <= j < i ==> memberArray[j] == WithScore(values[j])
      invariant forall j :: i <= j < memberArray.Length ==> memberArray[j] == values[j]
    {
      var member := memberArray[i];
      memberArray[i] := member.(score := Score(member));
    }
  }

  /** One pass of the season loop: accumulate, score, then sort by score. */
  method RankSeason(group: SeasonGroup, clanMembers: seq<Member>)
    returns (memberArray: array<ParticipantSeasonData>)
    ensures fresh(memberArray)
    ensures memberArray[..] == SeasonRankingOf(group.wars)
  {
    var members := AccumulateSeason(group.wars, clanMembers);
    memberArray := EvaluateParticipantScore(members);
    SortInPlace(memberArray, ScoreKey);
  }

  // What a season ranking holds.

  /**
   * The ranking is non-increasing in score, a permutation of the scored
   * member records, and ties keep the map's insertion order.
   */
  lemma RankingSortedStable(wars: seq<WarRecord>)
    ensures Sorted(SeasonRankingOf(wars), ScoreKey)
    ensures multiset(SeasonRankingOf(wars)) == multiset(ScoredMembers(wars))
    ensures forall v :: KeyFilter(SeasonRankingOf(wars), ScoreKey, v) == KeyFilter(ScoredMembers(wars), ScoreKey, v)
  {
    SortDescSorted(ScoredMembers(wars), ScoreKey);
    forall v ensures KeyFilter(SeasonRankingOf(wars), ScoreKey, v) == KeyFilter(ScoredMembers(wars), ScoreKey, v) {
      SortDescStable(ScoredMembers(wars), ScoreKey, v);
    }
  }

  /** The `i`-th scored record is the totals of the `i`-th tag met, scored. */
  lemma ScoredMember(wars: seq<WarRecord>, i: int)
    requires 0 <= i < |ScoredMembers(wars)|
    ensures i < |Dedup(Tags(Flatten(wars)))|
    ensures var t := Dedup(Tags(Flatten(wars)))[i];
      && Restrict(Flatten(wars), t) != []
      && ScoredMembers(wars)[i] == WithScore(Summary(Restrict(Flatten(wars), t)))
      && ScoredMembers(wars)[i].tag == t
  {
    var ps := Flatten(wars);
    AccumulateTotals(ps);
    var m := Accumulate(ps);
    var t := m.keys[i];
    assert t in m.entries;
    var rs := Restrict(ps, t);
    assert m.entries[t] == Summary(rs);
    assert Values(m)[i] == Summary(rs);
    assert ScoredMembers(wars)[i] == WithScore(Summary(rs));
    assert rs[0] in rs;
  }

  /** The scored records carry the map's keys as tags, in key order. */
  lemma ScoredMembersTags(wars: seq<WarRecord>)
    ensures Project(ScoredMembers(wars), TagOf) == Dedup(Tags(Flatten(wars)))
  {
    var s := ScoredMembers(wars);
    var d := Dedup(Tags(Flatten(wars)));
    AccumulateTotals(Flatten(wars));
    assert |s| == |d|;
    forall i | 0 <= i < |s| ensures s[i].tag == d[i] {
      ScoredMember(wars, i);
    }
  }

  /**
   * Every tag met in the season's wars has exactly one entry in the
   * ranking, and a tag not met (a roster member who fought none of the
   * season's wars) has none.
   */
  lemma RankingOneEntryPerTag(wars: seq<WarRecord>, t: string)
    ensures multiset(Project(SeasonRankingOf(wars), TagOf))[t] == if t in Tags(Flatten(wars)) then 1 else 0
  {
    ScoredMembersTags(wars);
    SortDescProjectPerm(ScoredMembers(wars), ScoreKey, TagOf);
    DistinctOccursOnce(Dedup(Tags(Flatten(wars))), t);
  }

  /**
   * Every ranking entry is its tag's season totals: the sums of the tag's
   * per-war counters, the name of its first result, the `warDayNotPlayed`
   * flag (0 or 1), zero placeholders, and the score
   * `cardsEarned + 500 * wins - 1500 * warDayNotPlayed`.
   */
  lemma RankingEntries(wars: seq<WarRecord>, e: ParticipantSeasonData)
    requires e in SeasonRankingOf(wars)
    ensures Restrict(Flatten(wars), e.tag) != []
    ensures var rs := Restrict(Flatten(wars), e.tag);
      && e.name == rs[0].name
      && e.cardsEarned == SumCards(rs)
      && e.battlesPlayed == SumBattles(rs)
      && e.wins == SumWins(rs)
      && e.warDayNotPlayed == WarDayFlag(rs) <= 1
      && e.collectionBattleNotPlayed == 0
      && e.warNotPlayed == 0
      && e.score == SumCards(rs) + 500 * SumWins(rs) - 1500 * WarDayFlag(rs)
  {
    var s := ScoredMembers(wars);
    RankingSortedStable(wars);
    assert e in multiset(s);
    var i :| 0 <= i < |s| && s[i] == e;
    ScoredMember(wars, i);
    var rs := Restrict(Flatten(wars), e.tag);
    WarDayFlagBounds(rs);
  }
}
