/**
 * Per-participant accumulation within one season: every participant result
 * of every war of the season, in war order, is folded into the season's
 * `members` map under the participant's tag.
 */
module ParticipantTotals {
  import opened OrderedMaps
  import opened ClanData

  /** All participant results of `wars`, war after war, each war's in its own order. */
  function Flatten(wars: seq<WarRecord>): seq<ParticipantResult>
  {
    if wars == [] then [] else Flatten(wars[..|wars| - 1]) + wars[|wars| - 1].participants
  }

  /** The tag of every participant result, in order. */
  function Tags(ps: seq<ParticipantResult>): (r: seq<string>)
    ensures |r| == |ps|
    ensures forall i :: 0 <= i < |ps| ==> r[i] == ps[i].tag
  {
    if ps == [] then [] else Tags(ps[..|ps| - 1]) + [ps[|ps| - 1].tag]
  }

  /** The zeroed record created the first time a tag is met in the season. */
  function DefaultParticipantSeasonData(p: ParticipantResult): ParticipantSeasonData
  {
    ParticipantSeasonData(p.name, p.tag, 0, 0, 0, 0, 0, 0, 0)
  }

  /**
   * The fresh record that replaces `previous` after the result `p`: the three
   * counters are summed; `warDayNotPlayed` is 1 exactly when the previous
   * value plus this war's battle count is 0 (the flag is not a count).
   */
  function AddParticipantWarInformation(previous: ParticipantSeasonData, p: ParticipantResult): ParticipantSeasonData
  {
    ParticipantSeasonData(
      previous.name,
      previous.tag,
      previous.cardsEarned + p.cardsEarned,
      previous.battlesPlayed + p.battlesPlayed,
      previous.wins + p.wins,
      if previous.warDayNotPlayed + p.battlesPlayed == 0 then 1 else 0,
      0,
      0,
      0)
  }

  /** The hook meant to mark roster members absent from a war; it changes nothing. */
  function AddMissingParticipant(
    clanMembers: seq<Member>,
    warParticipants: seq<ParticipantResult>,
    seasonParticipants: OMap<string, ParticipantSeasonData>): OMap<string, ParticipantSeasonData>
  {
    seasonParticipants
  }

  /** One step of the fold: the record under `p.tag` (or a zeroed one) replaced by its update. */
  function AddResult(m: OMap<string, ParticipantSeasonData>, p: ParticipantResult): OMap<string, ParticipantSeasonData>
  {
    Set(m, p.tag, AddParticipantWarInformation(GetOr(m, p.tag, DefaultParticipantSeasonData(p)), p))
  }

  /** The `members` map after folding the results `ps` in order. */
  function Accumulate(ps: seq<ParticipantResult>): OMap<string, ParticipantSeasonData>
  {
    if ps == [] then Empty() else AddResult(Accumulate(ps[..|ps| - 1]), ps[|ps| - 1])
  }

  // Reference definitions of a season's totals for one tag.

  /** The results carrying tag `t`, in order: one per war the tag fought in. */
  function Restrict(ps: seq<ParticipantResult>, t: string): (r: seq<ParticipantResult>)
    ensures forall p :: p in r ==> p in ps && p.tag == t
  {
    if ps == [] then []
    else Restrict(ps[..|ps| - 1], t) + (if ps[|ps| - 1].tag == t then [ps[|ps| - 1]] else [])
  }

  function SumCards(rs: seq<ParticipantResult>): nat
  {
    if rs == [] then 0 else SumCards(rs[..|rs| - 1]) + rs[|rs| - 1].cardsEarned
  }

  function SumBattles(rs: seq<ParticipantResult>): nat
  {
    if rs == [] then 0 else SumBattles(rs[..|rs| - 1]) + rs[|rs| - 1].battlesPlayed
  }

  function SumWins(rs: seq<ParticipantResult>): nat
  {
    if rs == [] then 0 else SumWins(rs[..|rs| - 1]) + rs[|rs| - 1].wins
  }

  /**
   * The `warDayNotPlayed` value the fold leaves after the results `rs`: each
   * result sets it to 1 when the previous value plus that result's battle
   * count is 0, and to 0 otherwise.
   */
  function WarDayFlag(rs: seq<ParticipantResult>): nat
  {
    if rs == [] then 0
    else if WarDayFlag(rs[..|rs| - 1]) + rs[|rs| - 1].battlesPlayed == 0 then 1
    else 0
  }

  /** The record one tag's results add up to; name and tag come from the first. */
  function Summary(rs: seq<ParticipantResult>): ParticipantSeasonData
    requires rs != []
  {
    ParticipantSeasonData(rs[0].name, rs[0].tag, SumCards(rs), SumBattles(rs), SumWins(rs), WarDayFlag(rs), 0, 0, 0)
  }

  lemma {:induction false} RestrictAppend(ps: seq<ParticipantResult>, p: ParticipantResult, t: string)
    ensures Restrict(ps + [p], t) == Restrict(ps, t) + (if p.tag == t then [p] else [])
  {
    assert (ps + [p])[..|ps|] == ps;
  }

  lemma {:induction false} RestrictEmpty(ps: seq<ParticipantResult>, t: string)
    requires t !in Tags(ps)
    ensures Restrict(ps, t) == []
  {
    if ps != [] {
      var init := ps[..|ps| - 1];
      assert Tags(ps) == Tags(init) + [ps[|ps| - 1].tag];
      RestrictEmpty(init, t);
    }
  }

  lemma SummaryAppend(rs: seq<ParticipantResult>, p: ParticipantResult)
    requires rs != []
    ensures Summary(rs + [p]) == AddParticipantWarInformation(Summary(rs), p)
  {
    assert (rs + [p])[..|rs|] == rs;
  }

  /** `ps` accumulated into `m`: keys in first-occurrence order, each entry the tag's totals. */
  ghost predicate TotalsOf(m: OMap<string, ParticipantSeasonData>, ps: seq<ParticipantResult>)
  {
    && Valid(m)
    && m.keys == Dedup(Tags(ps))
    && forall t :: t in m.entries ==> Restrict(ps, t) != [] && m.entries[t] == Summary(Restrict(ps, t))
  }

  /** One step of the fold: the result `p` folded into the map of `ps`. */
  lemma AccumulateAppend(ps: seq<ParticipantResult>, p: ParticipantResult)
    ensures Accumulate(ps + [p]) == AddResult(Accumulate(ps), p)
  {
    assert (ps + [p])[..|ps|] == ps;
  }

  lemma TagsAppend(ps: seq<ParticipantResult>, p: ParticipantResult)
    ensures Dedup(Tags(ps + [p])) == if p.tag in Dedup(Tags(ps)) then Dedup(Tags(ps)) else Dedup(Tags(ps)) + [p.tag]
  {
    assert (ps + [p])[..|ps|] == ps;
    assert Tags(ps + [p])[..|ps|] == Tags(ps);
  }

  lemma EntryStep(ps: seq<ParticipantResult>, p: ParticipantResult, t: string)
    requires TotalsOf(Accumulate(ps), ps)
    requires t in Accumulate(ps + [p]).entries
    ensures Restrict(ps + [p], t) != [] && Accumulate(ps + [p]).entries[t] == Summary(Restrict(ps + [p], t))
  {
    var m := Accumulate(ps);
    AccumulateAppend(ps, p);
    RestrictAppend(ps, p, t);
    if t != p.tag {
      assert t in m.entries;
      var rs := Restrict(ps, t);
      assert Restrict(ps + [p], t) == rs;
      assert Accumulate(ps + [p]).entries[t] == m.entries[t] == Summary(rs);
    } else if t in m.entries {
      var rs := Restrict(ps, t);
      assert Restrict(ps + [p], t) == rs + [p];
      assert Accumulate(ps + [p]).entries[t] == AddParticipantWarInformation(Summary(rs), p);
      SummaryAppend(rs, p);
    } else {
      assert t !in Dedup(Tags(ps));
      RestrictEmpty(ps, t);
      assert Restrict(ps + [p], t) == [p];
      SummarySingle(p);
      assert Accumulate(ps + [p]).entries[t] == AddParticipantWarInformation(DefaultParticipantSeasonData(p), p);
    }
  }

  lemma SummarySingle(p: ParticipantResult)
    ensures Summary([p]) == AddParticipantWarInformation(DefaultParticipantSeasonData(p), p)
  {
    assert [p][..0] == [];
    assert SumCards([p]) == p.cardsEarned;
    assert SumBattles([p]) == p.battlesPlayed;
    assert SumWins([p]) == p.wins;
    assert WarDayFlag([p]) == if p.battlesPlayed == 0 then 1 else 0;
  }

  lemma {:induction false} TotalsStep(ps: seq<ParticipantResult>, p: ParticipantResult)
    requires TotalsOf(Accumulate(ps), ps)
    ensures TotalsOf(Accumulate(ps + [p]), ps + [p])
  {
    AccumulateAppend(ps, p);
    TagsAppend(ps, p);
    var m := Accumulate(ps);
    SetValid(m, p.tag, AddParticipantWarInformation(GetOr(m, p.tag, DefaultParticipantSeasonData(p)), p));
    var m' := Accumulate(ps + [p]);
    forall t | t in m'.entries
      ensures Restrict(ps + [p], t) != [] && m'.entries[t] == Summary(Restrict(ps + [p], t))
    {
      EntryStep(ps, p, t);
    }
  }

  lemma FlattenAppend(wars: seq<WarRecord>, w: int)
    requires 0 <= w < |wars|
    ensures Flatten(wars[..w + 1]) == Flatten(wars[..w]) + wars[w].participants
  {
    assert wars[..w + 1][..w] == wars[..w];
  }

  /**
   * The fold gives one entry per distinct tag, in the order the tags are
   * first met, holding that tag's summed counters, the name and tag of its
   * first result, the `warDayNotPlayed` flag and zero placeholders.
   */
  lemma {:induction false} AccumulateTotals(ps: seq<ParticipantResult>)
    ensures Valid(Accumulate(ps))
    ensures Accumulate(ps).keys == Dedup(Tags(ps))
    ensures forall t :: t in Accumulate(ps).entries ==>
      Restrict(ps, t) != [] && Accumulate(ps).entries[t] == Summary(Restrict(ps, t))
  {
    if ps != [] {
      var init := ps[..|ps| - 1];
      assert ps == init + [ps[|ps| - 1]];
      AccumulateTotals(init);
      TotalsStep(init, ps[|ps| - 1]);
    }
  }

  /**
   * The loops over the season's wars and over each war's participants: each
   * result replaces the tag's record (or a zeroed one) by the updated copy.
   */
  method AccumulateSeason(wars: seq<WarRecord>, clanMembers: seq<Member>)
    returns (members: OMap<string, ParticipantSeasonData>)
    ensures members == Accumulate(Flatten(wars))
    ensures Valid(members)
    ensures members.keys == Dedup(Tags(Flatten(wars)))
    ensures forall t :: t in members.entries ==>
      Restrict(Flatten(wars), t) != [] && members.entries[t] == Summary(Restrict(Flatten(wars), t))
  {
    members := Empty();
    var w := 0;
    while w < |wars|
      invariant 0 <= w <= |wars|
      invariant members == Accumulate(Flatten(wars[..w]))
    {
      var war := wars[w];
      members := AccumulateWar(members, Flatten(wars[..w]), war.participants);
      members := AddMissingParticipant(clanMembers, war.participants, members);
      FlattenAppend(wars, w);
      w := w + 1;
    }
    assert wars[..|wars|] == wars;
    AccumulateTotals(Flatten(wars));
  }

  /** The inner loop: one war's participants folded into the map of the results `before`. */
  method AccumulateWar(
    members: OMap<string, ParticipantSeasonData>,
    ghost before: seq<ParticipantResult>,
    participants: seq<ParticipantResult>)
    returns (r: OMap<string, ParticipantSeasonData>)
    requires members == Accumulate(before)
    ensures r == Accumulate(before + participants)
  {
    r := members;
    var j := 0;
    ghost var done := before;
    assert participants[..0] == [];
    while j < |participants|
      invariant 0 <= j <= |participants|
      invariant done == before + participants[..j]
      invariant r == Accumulate(done)
    {
      var participant := participants[j];
      assert participants[..j + 1] == participants[..j] + [participant];
      AccumulateAppend(done, participant);
      var previous := GetOr(r, participant.tag, DefaultParticipantSeasonData(participant));
      previous := AddParticipantWarInformation(previous, participant);
      r := Set(r, participant.tag, previous);
      done := done + [participant];
      j := j + 1;
    }
    assert participants[..|participants|] == participants;
  }

  // What `warDayNotPlayed` ends up as.

  /** The number of results at the end of `rs` with no battle played. */
  function TrailingIdle(rs: seq<ParticipantResult>): nat
  {
    if rs == [] || rs[|rs| - 1].battlesPlayed != 0 then 0 else TrailingIdle(rs[..|rs| - 1]) + 1
  }

  /** The number of wars with no battle played: what the flag is documented to count. */
  function IdleWars(rs: seq<ParticipantResult>): nat
  {
    if rs == [] then 0
    else IdleWars(rs[..|rs| - 1]) + (if rs[|rs| - 1].battlesPlayed == 0 then 1 else 0)
  }

  /**
   * The flag is 1 exactly when the run of battle-less wars at the end of the
   * season has odd length: a second idle war in a row resets it to 0, and a
   * played war after idle ones erases them.
   */
  lemma {:induction false} WarDayFlagIsTrailingParity(rs: seq<ParticipantResult>)
    ensures WarDayFlag(rs) == if TrailingIdle(rs) % 2 == 1 then 1 else 0
  {
    if rs != [] {
      WarDayFlagIsTrailingParity(rs[..|rs| - 1]);
    }
  }

  lemma {:induction false} TrailingIdleAtMostIdleWars(rs: seq<ParticipantResult>)
    ensures TrailingIdle(rs) <= IdleWars(rs)
  {
    if rs != [] {
      TrailingIdleAtMostIdleWars(rs[..|rs| - 1]);
    }
  }

  /** The flag never exceeds 1 nor the number of battle-less wars. */
  lemma {:induction false} WarDayFlagBounds(rs: seq<ParticipantResult>)
    ensures WarDayFlag(rs) <= 1
    ensures WarDayFlag(rs) <= IdleWars(rs)
    ensures IdleWars(rs) == 0 ==> WarDayFlag(rs) == 0
  {
    WarDayFlagIsTrailingParity(rs);
    TrailingIdleAtMostIdleWars(rs);
  }

  /** Two battle-less wars in a row leave the flag at 0, not 2. */
  lemma WarDayFlagMissesSecondIdleWar(p: ParticipantResult)
    requires p.battlesPlayed == 0
    ensures IdleWars([p, p]) == 2
    ensures WarDayFlag([p, p]) == 0
  {
    assert [p, p][..1] == [p];
    assert [p][..0] == [];
    assert IdleWars([p]) == 1 && WarDayFlag([p]) == 1;
  }
}
