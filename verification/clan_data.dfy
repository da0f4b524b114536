/**
 * The records the clan-war statistics are computed from and produced as:
 * the roster and war-log payloads of the game API, the per-season running
 * totals kept for each participant, and the assembled statistics object.
 */
module ClanData {

  /** A roster entry from the clan endpoint. */
  datatype Member = Member(tag: string, name: string, role: string, donations: int)

  /** One participant's result in one war of the war log. */
  datatype ParticipantResult = ParticipantResult(
    tag: string,
    name: string,
    cardsEarned: nat,
    battlesPlayed: nat,
    wins: nat)

  /** One war of the war log. */
  datatype WarRecord = WarRecord(seasonNumber: int, participants: seq<ParticipantResult>)

  /**
   * A participant's running totals within one season: the record stored
   * under the participant's tag in the season's `members` map, and later an
   * element of the season's ranking once `score` is filled in.
   * `collectionBattleNotPlayed` and `warNotPlayed` are placeholders that no
   * payload field feeds; they are always 0.
   */
  datatype ParticipantSeasonData = ParticipantSeasonData(
    name: string,
    tag: string,
    cardsEarned: nat,
    battlesPlayed: nat,
    wins: nat,
    warDayNotPlayed: nat,
    collectionBattleNotPlayed: nat,
    warNotPlayed: nat,
    score: int)

  /** The value stored per season number while the war log is grouped. */
  datatype SeasonGroup = SeasonGroup(season: int, wars: seq<WarRecord>)

  /** One entry of `war_ranking`. */
  datatype SeasonRanking = SeasonRanking(season: int, ranking: seq<ParticipantSeasonData>)

  /** The statistics object: `donations_ranking` and `war_ranking`. */
  datatype ClanWarStats = ClanWarStats(donationsRanking: seq<Member>, warRanking: seq<SeasonRanking>)
}
