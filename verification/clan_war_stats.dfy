/**
 * The whole clan-war statistics computation on the two fetched payloads:
 * the roster sorted in place by descending donations, the war log grouped
 * by season, every season ranked, and the statistics object assembled from
 * the roster and one `{season, ranking}` entry per season in map order.
 */
module ClanWarStatistics {
  import opened OrderedMaps
  import opened StableSort
  import opened ClanData
  import opened SeasonGrouping
  import opened ParticipantTotals
  import opened SeasonScoring

  /** The sort key of the donations ranking. */
  function DonationsKey(m: Member): int
  {
    m.donations
  }

  /**
   * The roster's comparator: positive when `a` donated less than `b`,
   * negative when it donated more, 0 on a tie.
   */
  function CompareDonations(a: Member, b: Member): (r: int)
    ensures r > 0 <==> DonationsKey(a) < DonationsKey(b)
    ensures r < 0 <==> DonationsKey(a) > DonationsKey(b)
    ensures r == CompareDesc(DonationsKey(a), DonationsKey(b))
  {
    if a.donations < b.donations then 1
    else if a.donations > b.donations then -1
    else 0
  }

  /** `war_ranking`: one entry per season of the log, in first-occurrence order. */
  function WarRanking(log: seq<WarRecord>): seq<SeasonRanking>
  {
    var ks := Seasons(log);
    seq(|ks|, i requires 0 <= i < |ks| => SeasonRanking(ks[i], SeasonRankingOf(WarsOfSeason(log, ks[i]))))
  }

  /** The statistics computed from the roster and the war log. */
  function ClanWarStatsOf(roster: seq<Member>, log: seq<WarRecord>): ClanWarStats
  {
    ClanWarStats(SortDesc(roster, DonationsKey), WarRanking(log))
  }

  /** The season number of every `war_ranking` entry, in order. */
  function RankedSeasons(wr: seq<SeasonRanking>): seq<int>
  {
    seq(|wr|, i requires 0 <= i < |wr| => wr[i].season)
  }

  /**
   * The season loop: each group is ranked, and the ranking is attached to
   * the group, whose key and position in the map stay as they were.
   */
  method RankSeasons(groups: OMap<int, SeasonGroup>, clanMembers: seq<Member>)
    returns (seasons: OMap<int, SeasonRanking>)
    requires Valid(groups)
    ensures Valid(seasons)
    ensures seasons.keys == groups.keys
    ensures forall k :: k in seasons.entries ==>
      seasons.entries[k] == SeasonRanking(groups.entries[k].season, SeasonRankingOf(groups.entries[k].wars))
  {
    var ranked: map<int, SeasonRanking> := map[];
    var i := 0;
    while i < |groups.keys|
      invariant 0 <= i <= |groups.keys|
      invariant forall k :: k in ranked <==> k in groups.keys[..i]
      invariant forall k :: k in ranked ==>
        k in groups.entries && ranked[k] == SeasonRanking(groups.entries[k].season, SeasonRankingOf(groups.entries[k].wars))
    {
      var seasonNumber := groups.keys[i];
      var season := groups.entries[seasonNumber];
      var memberArray := RankSeason(season, clanMembers);
      ranked := ranked[seasonNumber := SeasonRanking(season.season, memberArray[..])];
      assert groups.keys[..i + 1] == groups.keys[..i] + [seasonNumber];
      i := i + 1;
    }
    assert groups.keys[..|groups.keys|] == groups.keys;
    seasons := OMap(groups.keys, ranked);
  }

  /** The assembly loop: the roster, then one entry per season in map order. */
  method AssembleStats(roster: seq<Member>, seasons: OMap<int, SeasonRanking>) returns (stats: ClanWarStats)
    requires Valid(seasons)
    ensures stats.donationsRanking == roster
    ensures stats.warRanking == Values(seasons)
  {
    var warRanking: seq<SeasonRanking> := [];
    for i := 0 to |seasons.keys|
      invariant warRanking == Values(seasons)[..i]
    {
      var seasonStats := seasons.entries[seasons.keys[i]];
      warRanking := warRanking + [SeasonRanking(seasonStats.season, seasonStats.ranking)];
    }
    stats := ClanWarStats(roster, warRanking);
  }

  /**
   * The full computation: the roster is sorted in place by descending
   * donations, and the statistics are assembled from it and the war log.
   */
  method RetrieveClanWarStats(roster: array<Member>, log: seq<WarRecord>) returns (stats: ClanWarStats)
    modifies roster
    ensures roster[..] == SortDesc(old(roster[..]), DonationsKey)
    ensures stats == ClanWarStatsOf(old(roster[..]), log)
  {
    SortInPlace(roster, DonationsKey);
    var groups := GroupBySeason(log);
    var seasons := RankSeasons(groups, roster[..]);
    stats := AssembleStats(roster[..], seasons);
    RankedGroupsAreWarRanking(log, groups, seasons);
  }

  /** Ranking every group of the log's grouping, in map order, gives `war_ranking`. */
  lemma RankedGroupsAreWarRanking(log: seq<WarRecord>, groups: OMap<int, SeasonGroup>, seasons: OMap<int, SeasonRanking>)
    requires GroupsOf(groups, log)
    requires Valid(seasons) && seasons.keys == groups.keys
    requires forall k :: k in seasons.entries ==>
      seasons.entries[k] == SeasonRanking(groups.entries[k].season, SeasonRankingOf(groups.entries[k].wars))
    ensures Values(seasons) == WarRanking(log)
  {
    forall i | 0 <= i < |seasons.keys| ensures Values(seasons)[i] == WarRanking(log)[i] {
      var k := seasons.keys[i];
      assert groups.entries[k] == SeasonGroup(k, WarsOfSeason(log, k));
    }
  }

  // What the statistics hold.

  /**
   * `donations_ranking` is the roster, non-increasing in donations, with
   * every member kept and members with equal donations in roster order.
   */
  lemma DonationsRankingSortedStable(roster: seq<Member>, log: seq<WarRecord>)
    ensures Sorted(ClanWarStatsOf(roster, log).donationsRanking, DonationsKey)
    ensures multiset(ClanWarStatsOf(roster, log).donationsRanking) == multiset(roster)
    ensures forall v :: KeyFilter(ClanWarStatsOf(roster, log).donationsRanking, DonationsKey, v) == KeyFilter(roster, DonationsKey, v)
  {
    SortDescSorted(roster, DonationsKey);
    forall v ensures KeyFilter(SortDesc(roster, DonationsKey), DonationsKey, v) == KeyFilter(roster, DonationsKey, v) {
      SortDescStable(roster, DonationsKey, v);
    }
  }

  /**
   * `war_ranking` lists each season number of the log exactly once, and
   * nothing else; an empty log gives an empty `war_ranking`.
   */
  lemma WarRankingOnePerSeason(log: seq<WarRecord>)
    ensures RankedSeasons(WarRanking(log)) == Seasons(log)
    ensures Distinct(RankedSeasons(WarRanking(log)))
    ensures forall k :: k in RankedSeasons(WarRanking(log)) <==> exists w :: w in log && w.seasonNumber == k
    ensures log == [] ==> WarRanking(log) == []
  {
    forall k | k in SeasonNumbers(log) ensures exists w :: w in log && w.seasonNumber == k {
      var i :| 0 <= i < |log| && SeasonNumbers(log)[i] == k;
      assert log[i] in log;
    }
    forall w | w in log ensures w.seasonNumber in SeasonNumbers(log) {
      var i :| 0 <= i < |log| && log[i] == w;
      assert SeasonNumbers(log)[i] == w.seasonNumber;
    }
  }

  /**
   * Seasons appear in `war_ranking` in the order their first war appears in
   * the log.
   */
  lemma WarRankingFirstOccurrenceOrder(log: seq<WarRecord>, p: int, q: int)
    requires FirstAt(SeasonNumbers(log), p) && FirstAt(SeasonNumbers(log), q) && p < q
    ensures forall i, j ::
      0 <= i < |WarRanking(log)| && 0 <= j < |WarRanking(log)|
      && WarRanking(log)[i].season == log[p].seasonNumber
      && WarRanking(log)[j].season == log[q].seasonNumber
      ==> i < j
  {
    DedupFirstOccurrenceOrder(SeasonNumbers(log), p, q);
  }

  /**
   * Each `war_ranking` entry ranks exactly the wars of its season: its
   * tags are those met in that season's wars, one entry each.
   */
  lemma WarRankingEntry(log: seq<WarRecord>, i: int, t: string)
    requires 0 <= i < |WarRanking(log)|
    ensures var e := WarRanking(log)[i];
      && e.ranking == SeasonRankingOf(WarsOfSeason(log, e.season))
      && (forall w :: w in WarsOfSeason(log, e.season) <==> w in log && w.seasonNumber == e.season)
      && multiset(Project(e.ranking, TagOf))[t] == if t in Tags(Flatten(WarsOfSeason(log, e.season))) then 1 else 0
  {
    RankingOneEntryPerTag(WarsOfSeason(log, WarRanking(log)[i].season), t);
  }
}
