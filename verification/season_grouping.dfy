/**
 * Grouping of the war log by season number into an insertion-ordered map:
 * each season number is a key, set when the season is first met, and its
 * group collects that season's wars in log order.
 */
module SeasonGrouping {
  import opened OrderedMaps
  import opened ClanData

  /** The season number of every war, in log order. */
  function SeasonNumbers(log: seq<WarRecord>): (r: seq<int>)
    ensures |r| == |log|
    ensures forall i :: 0 <= i < |log| ==> r[i] == log[i].seasonNumber
  {
    if log == [] then [] else SeasonNumbers(log[..|log| - 1]) + [log[|log| - 1].seasonNumber]
  }

  /** The seasons of the log, each once, in the order of first occurrence. */
  function Seasons(log: seq<WarRecord>): seq<int>
  {
    Dedup(SeasonNumbers(log))
  }

  /** The wars of season `k`, in log order. */
  function WarsOfSeason(log: seq<WarRecord>, k: int): (r: seq<WarRecord>)
    ensures forall w :: w in r <==> w in log && w.seasonNumber == k
  {
    if log == [] then []
    else
      var init, last := log[..|log| - 1], log[|log| - 1];
      assert log == init + [last];
      WarsOfSeason(init, k) + (if last.seasonNumber == k then [last] else [])
  }

  /** A fresh group for the season of `war`, with no wars yet. */
  function DefaultSeasonInitialisation(war: WarRecord): SeasonGroup
  {
    SeasonGroup(war.seasonNumber, [])
  }

  lemma NoWarsOfAbsentSeason(log: seq<WarRecord>, k: int)
    requires k !in SeasonNumbers(log)
    ensures WarsOfSeason(log, k) == []
  {
  }

  lemma AppendWar(log: seq<WarRecord>, w: WarRecord)
    ensures SeasonNumbers(log + [w]) == SeasonNumbers(log) + [w.seasonNumber]
    ensures forall k :: WarsOfSeason(log + [w], k) == WarsOfSeason(log, k) + (if w.seasonNumber == k then [w] else [])
  {
    assert (log + [w])[..|log|] == log;
  }

  /** `groups` holds exactly the grouping of `log`. */
  ghost predicate GroupsOf(groups: OMap<int, SeasonGroup>, log: seq<WarRecord>)
  {
    && Valid(groups)
    && groups.keys == Seasons(log)
    && forall k :: k in groups.entries ==> groups.entries[k] == SeasonGroup(k, WarsOfSeason(log, k))
  }

  /** One step of the grouping loop: `war` appended to the group of its season. */
  function AddWar(groups: OMap<int, SeasonGroup>, war: WarRecord): OMap<int, SeasonGroup>
  {
    var previous := GetOr(groups, war.seasonNumber, DefaultSeasonInitialisation(war));
    Set(groups, war.seasonNumber, previous.(wars := previous.wars + [war]))
  }

  lemma AddWarGroups(groups: OMap<int, SeasonGroup>, done: seq<WarRecord>, war: WarRecord)
    requires GroupsOf(groups, done)
    ensures GroupsOf(AddWar(groups, war), done + [war])
  {
    AppendWar(done, war);
    var s := war.seasonNumber;
    var previous := GetOr(groups, s, DefaultSeasonInitialisation(war));
    SetValid(groups, s, previous.(wars := previous.wars + [war]));
    if s !in groups.entries {
      NoWarsOfAbsentSeason(done, s);
    }
    assert Seasons(done + [war]) == if s in Seasons(done) then Seasons(done) else Seasons(done) + [s];
    var g := AddWar(groups, war);
    forall k | k in g.entries ensures g.entries[k] == SeasonGroup(k, WarsOfSeason(done + [war], k)) {
      if k != s {
        assert g.entries[k] == groups.entries[k];
      }
    }
  }

  /**
   * Walks the war log once; each war is appended to the group of its season,
   * which is created (and its key appended) when the season is first met.
   */
  method GroupBySeason(log: seq<WarRecord>) returns (groups: OMap<int, SeasonGroup>)
    ensures Valid(groups)
    ensures groups.keys == Seasons(log)
    ensures forall k :: k in groups.entries ==> groups.entries[k] == SeasonGroup(k, WarsOfSeason(log, k))
  {
    groups := Empty();
    var i := 0;
    while i < |log|
      invariant 0 <= i <= |log|
      invariant GroupsOf(groups, log[..i])
    {
      var war := log[i];
      assert log[..i + 1] == log[..i] + [war];
      AddWarGroups(groups, log[..i], war);
      var previous := GetOr(groups, war.seasonNumber, DefaultSeasonInitialisation(war));
      previous := previous.(wars := previous.wars + [war]);
      groups := Set(groups, war.seasonNumber, previous);
      i := i + 1;
    }
    assert log[..|log|] == log;
  }

  /** The summed sizes of the groups of the seasons `ks`. */
  function GroupSizes(log: seq<WarRecord>, ks: seq<int>): nat
  {
    if ks == [] then 0 else GroupSizes(log, ks[..|ks| - 1]) + |WarsOfSeason(log, ks[|ks| - 1])|
  }

  lemma {:induction false} GroupSizesAppendWar(log: seq<WarRecord>, w: WarRecord, ks: seq<int>)
    requires Distinct(ks)
    ensures GroupSizes(log + [w], ks) == GroupSizes(log, ks) + (if w.seasonNumber in ks then 1 else 0)
  {
    AppendWar(log, w);
    if ks != [] {
      var init := ks[..|ks| - 1];
      assert ks == init + [ks[|ks| - 1]];
      assert Distinct(init);
      GroupSizesAppendWar(log, w, init);
    }
  }

  /** No war is dropped or duplicated: the group sizes add up to the log length. */
  lemma {:induction false} GroupSizesSumToLength(log: seq<WarRecord>)
    ensures GroupSizes(log, Seasons(log)) == |log|
  {
    if log != [] {
      var init, w := log[..|log| - 1], log[|log| - 1];
      assert log == init + [w];
      AppendWar(init, w);
      GroupSizesSumToLength(init);
      var d := Seasons(init);
      assert SeasonNumbers(log)[..|log| - 1] == SeasonNumbers(init);
      GroupSizesAppendWar(init, w, d);
      if w.seasonNumber !in d {
        NoWarsOfAbsentSeason(init, w.seasonNumber);
        assert Seasons(log) == d + [w.seasonNumber];
        assert Seasons(log)[..|d|] == d;
      }
    }
  }

  /** Every war lands in the group of its own season, which is a key. */
  lemma WarInItsSeason(log: seq<WarRecord>, i: int)
    requires 0 <= i < |log|
    ensures log[i].seasonNumber in Seasons(log)
    ensures log[i] in WarsOfSeason(log, log[i].seasonNumber)
  {
    assert SeasonNumbers(log)[i] == log[i].seasonNumber;
  }
}
