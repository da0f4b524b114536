/**
 * Worked examples: what the season pipeline and the roster sort compute on
 * small inputs.
 */
module Scenarios {
  import opened OrderedMaps
  import opened StableSort
  import opened ClanData
  import opened ParticipantTotals
  import opened SeasonScoring
  import opened ClanWarStatistics

  /** The fold over the results of one participant. */
  lemma AccumulateOne(p: ParticipantResult)
    ensures Accumulate([p]) == OMap([p.tag], map[p.tag := AddParticipantWarInformation(DefaultParticipantSeasonData(p), p)])
  {
    AccumulateAppend([], p);
    assert [] + [p] == [p];
  }

  /** The fold over two results with different tags. */
  lemma AccumulateTwo(p: ParticipantResult, q: ParticipantResult)
    requires p.tag != q.tag
    ensures Accumulate([p, q]) == OMap([p.tag, q.tag], map[
      p.tag := AddParticipantWarInformation(DefaultParticipantSeasonData(p), p),
      q.tag := AddParticipantWarInformation(DefaultParticipantSeasonData(q), q)])
  {
    AccumulateOne(p);
    AccumulateAppend([p], q);
    assert [p] + [q] == [p, q];
  }

  /** The fold over two results with the same tag. */
  lemma AccumulateSame(p: ParticipantResult, q: ParticipantResult)
    requires p.tag == q.tag
    ensures Accumulate([p, q]) == OMap([p.tag], map[
      p.tag := AddParticipantWarInformation(AddParticipantWarInformation(DefaultParticipantSeasonData(p), p), q)])
  {
    AccumulateOne(p);
    AccumulateAppend([p], q);
    assert [p] + [q] == [p, q];
  }

  lemma FlattenOne(w: WarRecord)
    ensures Flatten([w]) == w.participants
  {
    assert [w][..0] == [];
  }

  lemma FlattenTwo(v: WarRecord, w: WarRecord)
    ensures Flatten([v, w]) == v.participants + w.participants
  {
    assert [v, w][..1] == [v];
    FlattenOne(v);
  }

  /** Sorting two records whose scores are already in descending order keeps them. */
  lemma SortTwo(r: ParticipantSeasonData, q: ParticipantSeasonData)
    requires r.score >= q.score
    ensures SortDesc([r, q], ScoreKey) == [r, q]
  {
    assert [r, q][..1] == [r];
    SortOne(r);
  }

  /** A single-record sequence is already sorted. */
  lemma SortOne(r: ParticipantSeasonData)
    ensures SortDesc([r], ScoreKey) == [r]
  {
    assert [r][..0] == [];
  }

  /**
   * One war with A (100 cards, 3 battles, 2 wins) then B (50 cards, no
   * battle): A scores 1100, B is flagged and scores -1450, and A ranks first.
   */
  lemma OneWarTwoParticipants(season: int, a: ParticipantResult, b: ParticipantResult)
    requires a.tag != b.tag
    requires a.cardsEarned == 100 && a.battlesPlayed == 3 && a.wins == 2
    requires b.cardsEarned == 50 && b.battlesPlayed == 0 && b.wins == 0
    ensures SeasonRankingOf([WarRecord(season, [a, b])]) == [
      ParticipantSeasonData(a.name, a.tag, 100, 3, 2, 0, 0, 0, 1100),
      ParticipantSeasonData(b.name, b.tag, 50, 0, 0, 1, 0, 0, -1450)]
  {
    var wars := [WarRecord(season, [a, b])];
    FlattenOne(wars[0]);
    var ra := ParticipantSeasonData(a.name, a.tag, 100, 3, 2, 0, 0, 0, 0);
    var rb := ParticipantSeasonData(b.name, b.tag, 50, 0, 0, 1, 0, 0, 0);
    AccumulateTwo(a, b);
    var m := Accumulate([a, b]);
    assert m == OMap([a.tag, b.tag], map[a.tag := ra, b.tag := rb]);
    assert Values(m)[0] == ra && Values(m)[1] == rb;
    assert Values(m) == [ra, rb];
    var sa, sb := WithScore(ra), WithScore(rb);
    assert ScoredMembers(wars) == [sa, sb];
    assert sa.score == 1100 && sb.score == -1450;
    SortTwo(sa, sb);
  }

  /**
   * A participant with no battle and no card in two wars of the same season
   * ends with the flag cleared and a score of 0, not -3000.
   */
  lemma TwoIdleWarsScoreZero(season: int, p: ParticipantResult)
    requires p.cardsEarned == 0 && p.battlesPlayed == 0 && p.wins == 0
    ensures SeasonRankingOf([WarRecord(season, [p]), WarRecord(season, [p])]) == [
      ParticipantSeasonData(p.name, p.tag, 0, 0, 0, 0, 0, 0, 0)]
  {
    var wars := [WarRecord(season, [p]), WarRecord(season, [p])];
    FlattenTwo(wars[0], wars[1]);
    assert Flatten(wars) == [p, p];
    var r := ParticipantSeasonData(p.name, p.tag, 0, 0, 0, 0, 0, 0, 0);
    AccumulateSame(p, p);
    var m := Accumulate([p, p]);
    assert m == OMap([p.tag], map[p.tag := r]);
    assert Values(m) == [r];
    assert WithScore(r) == r;
    assert ScoredMembers(wars) == [r];
    SortOne(r);
  }

  /**
   * One tag in two wars of a season, with 20 then 30 cards: a single
   * ranking entry holding 50 cards and the summed battles and wins.
   */
  lemma SameTagTwoWarsSummed(season: int, p: ParticipantResult, q: ParticipantResult)
    requires p.tag == q.tag
    requires p.cardsEarned == 20 && q.cardsEarned == 30
    ensures var r := SeasonRankingOf([WarRecord(season, [p]), WarRecord(season, [q])]);
      && |r| == 1
      && r[0].tag == p.tag && r[0].name == p.name
      && r[0].cardsEarned == 50
      && r[0].battlesPlayed == p.battlesPlayed + q.battlesPlayed
      && r[0].wins == p.wins + q.wins
  {
    var wars := [WarRecord(season, [p]), WarRecord(season, [q])];
    FlattenTwo(wars[0], wars[1]);
    assert Flatten(wars) == [p, q];
    var r := AddParticipantWarInformation(AddParticipantWarInformation(DefaultParticipantSeasonData(p), p), q);
    AccumulateSame(p, q);
    var m := Accumulate([p, q]);
    assert m == OMap([p.tag], map[p.tag := r]);
    assert Values(m) == [r];
    assert ScoredMembers(wars) == [WithScore(r)];
    SortOne(WithScore(r));
  }

  /** A roster of A (10 donations) then B (50 donations) is ranked B, A. */
  lemma RosterByDonations(a: Member, b: Member, log: seq<WarRecord>)
    requires a.donations == 10 && b.donations == 50
    ensures ClanWarStatsOf([a, b], log).donationsRanking == [b, a]
  {
    assert [a, b][..1] == [a];
    assert [a][..0] == [];
    assert SortDesc([a], DonationsKey) == [a];
    assert CompareDesc(DonationsKey(a), DonationsKey(b)) > 0;
    assert Insert([a], b, DonationsKey) == Insert([], b, DonationsKey) + [a];
  }
}
