/** Goal distribution per team (`_get_team_goal_distribution`,
    `_get_goal_distribution_df`): the goals credited to a team counted by
    phase bucket, one row per (TeamID, TeamName) of the Match Stats sheet,
    joined with the number of matches the team name plays in according to
    the Match information sheet. */
module GoalDistribution {
  import opened Seqs
  import opened Sheets
  import opened Frames

  // ------------------------------------------------------------ one team

  /** A goal or penalty goal credits the scoring team; an own goal credits
      the team it was scored for. */
  predicate CreditsTeam(e: EventRecord, t: int)
  {
    || (e.teamFromId == t && (e.event == "Goal" || e.event == "GoalOnPenalty"))
    || (e.teamToId == t && e.event == "OwnGoal")
  }

  function TeamGoals(events: seq<EventRecord>, t: int): seq<EventRecord>
  {
    Filter(events, e => CreditsTeam(e, t))
  }

  datatype GoalCounts = GoalCounts(firstHalf: nat, secondHalf: nat, overtime: nat)

  predicate InFirstHalf(e: EventRecord) { e.phase == 1 }
  predicate InSecondHalf(e: EventRecord) { e.phase == 2 }
  predicate InOvertime(e: EventRecord) { e.phase >= 3 }

  /** The First Half / Second Half / Overtime counts of team `t`. */
  function TeamGoalDistribution(events: seq<EventRecord>, t: int): GoalCounts
  {
    var goals := TeamGoals(events, t);
    GoalCounts(|Filter(goals, InFirstHalf)|, |Filter(goals, InSecondHalf)|, |Filter(goals, InOvertime)|)
  }

  /** The reference tally: one event at a time, a credited event adds one to
      the bucket of its phase; a phase below 1 adds to none. */
  function AddGoal(g: GoalCounts, e: EventRecord, t: int): GoalCounts
  {
    if !CreditsTeam(e, t) then g
    else if e.phase == 1 then g.(firstHalf := g.firstHalf + 1)
    else if e.phase == 2 then g.(secondHalf := g.secondHalf + 1)
    else if e.phase >= 3 then g.(overtime := g.overtime + 1)
    else g
  }

  function Tally(events: seq<EventRecord>, t: int): GoalCounts
  {
    if events == [] then GoalCounts(0, 0, 0) else AddGoal(Tally(Init(events), t), Last(events), t)
  }

  /** The counts agree with the event-by-event tally. */
  lemma {:induction false} DistributionIsTally(events: seq<EventRecord>, t: int)
    ensures TeamGoalDistribution(events, t) == Tally(events, t)
    decreases |events|
  {
    if events != [] {
      var init, e := Init(events), Last(events);
      DistributionIsTally(init, t);
      InitLast(events);
      var p := (x: EventRecord) => CreditsTeam(x, t);
      FilterSnoc(init, e, p);
      var goals := TeamGoals(init, t);
      if CreditsTeam(e, t) {
        FilterSnoc(goals, e, InFirstHalf);
        FilterSnoc(goals, e, InSecondHalf);
        FilterSnoc(goals, e, InOvertime);
      } else {
        assert TeamGoals(events, t) == goals;
      }
    }
  }

  /** The three buckets together count the credited events of phase 1 and
      above, so they never exceed the team's credited events. */
  lemma {:induction false} BucketsCoverPhasesFromOne(events: seq<EventRecord>, t: int)
    ensures var g := TeamGoalDistribution(events, t);
      g.firstHalf + g.secondHalf + g.overtime == |Filter(TeamGoals(events, t), (e: EventRecord) => e.phase >= 1)|
    ensures var g := TeamGoalDistribution(events, t);
      g.firstHalf + g.secondHalf + g.overtime <= |TeamGoals(events, t)|
    decreases |events|
  {
    var fromOne := (e: EventRecord) => e.phase >= 1;
    if events != [] {
      var init, e := Init(events), Last(events);
      BucketsCoverPhasesFromOne(init, t);
      InitLast(events);
      var goals := TeamGoals(init, t);
      FilterSnoc(init, e, (x: EventRecord) => CreditsTeam(x, t));
      if CreditsTeam(e, t) {
        FilterSnoc(goals, e, InFirstHalf);
        FilterSnoc(goals, e, InSecondHalf);
        FilterSnoc(goals, e, InOvertime);
        FilterSnoc(goals, e, fromOne);
      } else {
        assert TeamGoals(events, t) == goals;
      }
    }
  }

  lemma TallySnoc(events: seq<EventRecord>, e: EventRecord, t: int)
    ensures Tally(events + [e], t) == AddGoal(Tally(events, t), e, t)
  {
    SnocParts(events, e);
  }

  /** Worked example: a first-half goal and an overtime penalty goal by team
      1 and a second-half own goal by team 2 give team 1 the counts 1 / 1 / 1,
      and team 2 nothing. */
  lemma OwnGoalExample()
    ensures var events := [
      EventRecord(7, 1, 2, "Goal", 1),
      EventRecord(7, 2, 1, "OwnGoal", 2),
      EventRecord(7, 1, 2, "GoalOnPenalty", 5)];
      && TeamGoalDistribution(events, 1) == GoalCounts(1, 1, 1)
      && TeamGoalDistribution(events, 2) == GoalCounts(0, 0, 0)
  {
    var e1, e2, e3 := EventRecord(7, 1, 2, "Goal", 1), EventRecord(7, 2, 1, "OwnGoal", 2),
      EventRecord(7, 1, 2, "GoalOnPenalty", 5);
    assert CreditsTeam(e1, 1) && !CreditsTeam(e1, 2);
    assert CreditsTeam(e2, 1) && !CreditsTeam(e2, 2);
    assert CreditsTeam(e3, 1) && !CreditsTeam(e3, 2);
    assert [e1] == [] + [e1] && [e1, e2] == [e1] + [e2] && [e1, e2, e3] == [e1, e2] + [e3];
    forall t | t == 1 || t == 2
      ensures Tally([e1, e2, e3], t) == AddGoal(AddGoal(AddGoal(GoalCounts(0, 0, 0), e1, t), e2, t), e3, t)
    {
      TallySnoc([], e1, t);
      TallySnoc([e1], e2, t);
      TallySnoc([e1, e2], e3, t);
    }
    DistributionIsTally([e1, e2, e3], 1);
    DistributionIsTally([e1, e2, e3], 2);
  }

  // ---------------------------------------------------------- match count

  function HomeName(m: InfoRecord): string { m.homeTeamName }
  function AwayName(m: InfoRecord): string { m.awayTeamName }

  /** `concat([HomeTeamName, AwayTeamName])`. */
  function AllTeamNames(info: seq<InfoRecord>): seq<string>
  {
    MapSeq(info, HomeName) + MapSeq(info, AwayName)
  }

  /** `value_counts()` of the names: one entry per name that occurs. */
  function MatchCounts(info: seq<InfoRecord>): (counts: map<string, nat>)
  {
    var names := AllTeamNames(info);
    map name | name in names :: Count(names, name)
  }

  /** The rows whose `side` is `name`. */
  function Naming(side: InfoRecord -> string, name: string): InfoRecord -> bool
  {
    m => side(m) == name
  }

  function HomeCount(info: seq<InfoRecord>, name: string): nat
  {
    |Filter(info, Naming(HomeName, name))|
  }

  function AwayCount(info: seq<InfoRecord>, name: string): nat
  {
    |Filter(info, Naming(AwayName, name))|
  }

  /** Counting `name` among the projections counts the rows whose
      projection is `name`. */
  lemma {:induction false} CountMapped(info: seq<InfoRecord>, side: InfoRecord -> string, name: string)
    ensures Count(MapSeq(info, side), name) == |Filter(info, Naming(side, name))|
    decreases |info|
  {
    if info != [] {
      var init, x := Init(info), Last(info);
      CountMapped(init, side, name);
      InitLast(info);
      MapSeqAppend(init, [x], side);
      FilterSnoc(MapSeq(init, side), side(x), EqualTo(name));
      FilterSnoc(init, x, Naming(side, name));
    }
  }

  /** A name has a match count exactly when it is the home or the away side
      of some match, and the count is its home matches plus its away
      matches. */
  lemma MatchCountsSpec(info: seq<InfoRecord>, name: string)
    ensures name in MatchCounts(info) <==> HomeCount(info, name) + AwayCount(info, name) > 0
    ensures name in MatchCounts(info) ==> MatchCounts(info)[name] == HomeCount(info, name) + AwayCount(info, name)
  {
    var home := MapSeq(info, HomeName);
    var away := MapSeq(info, AwayName);
    FilterAppend(home, away, EqualTo(name));
    CountMapped(info, HomeName, name);
    CountMapped(info, AwayName, name);
    assert Count(home + away, name) == HomeCount(info, name) + AwayCount(info, name);
    FilterMembers(home + away, EqualTo(name), name);
    if Count(home + away, name) > 0 {
      var j := FilterIndex(home + away, EqualTo(name), 0);
    }
  }

  // ------------------------------------------------------------ the table

  function TeamIdOf(r: StatRecord): int { r.teamId }

  /** `match_stats_df['TeamID'].unique()`. */
  function TeamIds(stats: seq<StatRecord>): seq<int>
  {
    Dedup(MapSeq(stats, TeamIdOf))
  }

  /** `drop_duplicates(subset=[TeamID, TeamName])`. */
  function IdNamePairs(stats: seq<StatRecord>): seq<TeamKey>
  {
    Dedup(MapSeq(stats, KeyOf))
  }

  function MakeRow(name: string, g: GoalCounts, matches: nat): GoalRow
  {
    GoalRow(name, g.firstHalf, g.secondHalf, g.overtime, matches)
  }

  /** The rows the two inner joins make of the counts of team `t`: one per
      name the team has, in the order of the name table, kept only when the
      name has a match count. */
  function NamedRows(t: int, g: GoalCounts, pairs: seq<TeamKey>, counts: map<string, nat>): seq<GoalRow>
  {
    if pairs == [] then []
    else
      var p := Last(pairs);
      NamedRows(t, g, Init(pairs), counts) +
        (if p.teamId == t && p.teamName in counts then [MakeRow(p.teamName, g, counts[p.teamName])] else [])
  }

  /** Both joins, team by team in the order of the goal table. */
  function JoinGoalRows(ids: seq<int>, dist: seq<GoalCounts>, pairs: seq<TeamKey>, counts: map<string, nat>)
    : seq<GoalRow>
    requires |dist| == |ids|
  {
    if ids == [] then []
    else JoinGoalRows(Init(ids), Init(dist), pairs, counts) + NamedRows(Last(ids), Last(dist), pairs, counts)
  }

  /** The goal-distribution table, indexed by team name. */
  function GoalTable(stats: seq<StatRecord>, events: seq<EventRecord>, info: seq<InfoRecord>): seq<GoalRow>
  {
    var ids := TeamIds(stats);
    JoinGoalRows(ids, MapSeq(ids, t => TeamGoalDistribution(events, t)), IdNamePairs(stats), MatchCounts(info))
  }

  /** `_get_goal_distribution_df`: fills one row per team id in place, then
      joins the names and match counts. */
  method BuildGoalDistribution(stats: seq<StatRecord>, events: seq<EventRecord>, info: seq<InfoRecord>)
    returns (rows: seq<GoalRow>)
    ensures rows == GoalTable(stats, events, info)
  {
    var ids := TeamIds(stats);
    var table := new GoalCounts[|ids|](_ => GoalCounts(0, 0, 0));
    for k := 0 to |ids|
      invariant forall j :: 0 <= j < k ==> table[j] == TeamGoalDistribution(events, ids[j])
    {
      table[k] := TeamGoalDistribution(events, ids[k]);
    }
    assert table[..] == MapSeq(ids, t => TeamGoalDistribution(events, t));
    rows := JoinGoalRows(ids, table[..], IdNamePairs(stats), MatchCounts(info));
  }

  // ---------------------------------------------------------------- proofs

  /** The row a (TeamID, TeamName) pair contributes. */
  function RowFor(p: TeamKey, events: seq<EventRecord>, counts: map<string, nat>): GoalRow
    requires p.teamName in counts
  {
    MakeRow(p.teamName, TeamGoalDistribution(events, p.teamId), counts[p.teamName])
  }

  ghost predicate ContributesRow(pairs: seq<TeamKey>, t: int, g: GoalCounts, counts: map<string, nat>, r: GoalRow)
  {
    exists a :: 0 <= a < |pairs| && pairs[a].teamId == t && pairs[a].teamName in counts &&
      r == MakeRow(pairs[a].teamName, g, counts[pairs[a].teamName])
  }

  lemma {:induction false} NamedRowsMembers(t: int, g: GoalCounts, pairs: seq<TeamKey>, counts: map<string, nat>, r: GoalRow)
    ensures r in NamedRows(t, g, pairs, counts) <==> ContributesRow(pairs, t, g, counts, r)
    decreases |pairs|
  {
    if pairs != [] {
      var init := Init(pairs);
      NamedRowsMembers(t, g, init, counts, r);
      assert forall a :: 0 <= a < |init| ==> pairs[a] == init[a];
      if ContributesRow(pairs, t, g, counts, r) {
        var a :| 0 <= a < |pairs| && pairs[a].teamId == t && pairs[a].teamName in counts &&
          r == MakeRow(pairs[a].teamName, g, counts[pairs[a].teamName]);
        if a < |init| {
          assert ContributesRow(init, t, g, counts, r);
        }
      }
    }
  }

  ghost predicate JoinedFrom(ids: seq<int>, dist: seq<GoalCounts>, r: GoalRow, pairs: seq<TeamKey>, counts: map<string, nat>)
    requires |dist| == |ids|
  {
    exists k :: 0 <= k < |ids| && r in NamedRows(ids[k], dist[k], pairs, counts)
  }

  lemma {:induction false} JoinGoalRowsMembers(ids: seq<int>, dist: seq<GoalCounts>, pairs: seq<TeamKey>, counts: map<string, nat>, r: GoalRow)
    requires |dist| == |ids|
    ensures r in JoinGoalRows(ids, dist, pairs, counts) <==> JoinedFrom(ids, dist, r, pairs, counts)
    decreases |ids|
  {
    if ids != [] {
      var init, dinit := Init(ids), Init(dist);
      JoinGoalRowsMembers(init, dinit, pairs, counts, r);
      assert forall k :: 0 <= k < |init| ==> ids[k] == init[k] && dist[k] == dinit[k];
      if JoinedFrom(ids, dist, r, pairs, counts) {
        var k :| 0 <= k < |ids| && r in NamedRows(ids[k], dist[k], pairs, counts);
        if k < |init| {
          assert JoinedFrom(init, dinit, r, pairs, counts);
        }
      }
    }
  }

  /** Some Match Stats record carries team `p`. */
  ghost predicate HasStatsRow(stats: seq<StatRecord>, p: TeamKey)
  {
    exists j :: 0 <= j < |stats| && KeyOf(stats[j]) == p
  }

  /** The name table holds exactly the pairs that occur in Match Stats. */
  lemma PairsOfStats(stats: seq<StatRecord>, p: TeamKey)
    ensures p in IdNamePairs(stats) <==> HasStatsRow(stats, p)
  {
    var keys := MapSeq(stats, KeyOf);
    if p in keys {
      var j :| 0 <= j < |keys| && keys[j] == p;
      assert KeyOf(stats[j]) == p;
    }
    if HasStatsRow(stats, p) {
      var j :| 0 <= j < |stats| && KeyOf(stats[j]) == p;
      assert keys[j] == p;
    }
  }

  /** Every team of the name table has a row in the goal table. */
  lemma IdsOfPairs(stats: seq<StatRecord>, p: TeamKey)
    requires HasStatsRow(stats, p)
    ensures p.teamId in TeamIds(stats)
  {
    var j :| 0 <= j < |stats| && KeyOf(stats[j]) == p;
    assert MapSeq(stats, TeamIdOf)[j] == p.teamId;
  }

  lemma GoalTableSound(stats: seq<StatRecord>, events: seq<EventRecord>, info: seq<InfoRecord>, r: GoalRow)
    requires r in GoalTable(stats, events, info)
    ensures exists p :: HasStatsRow(stats, p) && p.teamName in MatchCounts(info) && r == RowFor(p, events, MatchCounts(info))
  {
    var ids := TeamIds(stats);
    var dist := MapSeq(ids, t => TeamGoalDistribution(events, t));
    var pairs := IdNamePairs(stats);
    var counts := MatchCounts(info);
    JoinGoalRowsMembers(ids, dist, pairs, counts, r);
    var k :| 0 <= k < |ids| && r in NamedRows(ids[k], dist[k], pairs, counts);
    NamedRowsMembers(ids[k], dist[k], pairs, counts, r);
    var a :| 0 <= a < |pairs| && pairs[a].teamId == ids[k] && pairs[a].teamName in counts &&
      r == MakeRow(pairs[a].teamName, dist[k], counts[pairs[a].teamName]);
    var p := pairs[a];
    PairsOfStats(stats, p);
    assert r == RowFor(p, events, counts);
  }

  lemma GoalTableComplete(stats: seq<StatRecord>, events: seq<EventRecord>, info: seq<InfoRecord>, p: TeamKey)
    requires HasStatsRow(stats, p) && p.teamName in MatchCounts(info)
    ensures RowFor(p, events, MatchCounts(info)) in GoalTable(stats, events, info)
  {
    var ids := TeamIds(stats);
    var dist := MapSeq(ids, t => TeamGoalDistribution(events, t));
    var pairs := IdNamePairs(stats);
    var counts := MatchCounts(info);
    var r := RowFor(p, events, counts);
    PairsOfStats(stats, p);
    IdsOfPairs(stats, p);
    var a :| 0 <= a < |pairs| && pairs[a] == p;
    var k :| 0 <= k < |ids| && ids[k] == p.teamId;
    assert ContributesRow(pairs, ids[k], dist[k], counts, r);
    NamedRowsMembers(ids[k], dist[k], pairs, counts, r);
    JoinGoalRowsMembers(ids, dist, pairs, counts, r);
  }

  /** A row is in the table exactly when some Match Stats record's
      (TeamID, TeamName) has a name that plays in some match, and then the
      row carries that name, that TeamID's goal counts and that name's
      match count. A team without goals therefore has a row of zeros, and a
      team whose name never appears in the match information has none. */
  lemma GoalTableMembers(stats: seq<StatRecord>, events: seq<EventRecord>, info: seq<InfoRecord>, r: GoalRow)
    ensures r in GoalTable(stats, events, info) <==>
      exists p :: HasStatsRow(stats, p) && p.teamName in MatchCounts(info) && r == RowFor(p, events, MatchCounts(info))
  {
    if r in GoalTable(stats, events, info) {
      GoalTableSound(stats, events, info, r);
    }
    if exists p :: HasStatsRow(stats, p) && p.teamName in MatchCounts(info) && r == RowFor(p, events, MatchCounts(info)) {
      var p :| HasStatsRow(stats, p) && p.teamName in MatchCounts(info) && r == RowFor(p, events, MatchCounts(info));
      GoalTableComplete(stats, events, info, p);
    }
  }

  // ------------------------------------------------- one row per team key

  /** The name-table pairs that join team `t` to a match count. */
  function Joins(t: int, counts: map<string, nat>): TeamKey -> bool
  {
    (p: TeamKey) => p.teamId == t && p.teamName in counts
  }

  /** The (TeamID, TeamName) pairs behind the rows of the joins, in row order. */
  function JoinKeys(ids: seq<int>, pairs: seq<TeamKey>, counts: map<string, nat>): seq<TeamKey>
  {
    if ids == [] then [] else JoinKeys(Init(ids), pairs, counts) + Filter(pairs, Joins(Last(ids), counts))
  }

  /** The pairs behind the goal table's rows, in row order. */
  function GoalTableKeys(stats: seq<StatRecord>, info: seq<InfoRecord>): seq<TeamKey>
  {
    JoinKeys(TeamIds(stats), IdNamePairs(stats), MatchCounts(info))
  }

  /** Row `a` of one team's joins is the row of its `a`-th joining pair. */
  lemma {:induction false} NamedRowsKeyed(t: int, g: GoalCounts, pairs: seq<TeamKey>, counts: map<string, nat>)
    ensures var keys := Filter(pairs, Joins(t, counts));
      var rows := NamedRows(t, g, pairs, counts);
      && |rows| == |keys|
      && forall a :: 0 <= a < |keys| ==>
           keys[a].teamName in counts && rows[a] == MakeRow(keys[a].teamName, g, counts[keys[a].teamName])
    decreases |pairs|
  {
    if pairs != [] {
      NamedRowsKeyed(t, g, Init(pairs), counts);
    }
  }

  /** Row `i` of the joins is the row of the `i`-th key. */
  lemma {:induction false} JoinGoalRowsKeyed(ids: seq<int>, dist: seq<GoalCounts>, pairs: seq<TeamKey>,
                                             counts: map<string, nat>, events: seq<EventRecord>)
    requires |dist| == |ids|
    requires forall k :: 0 <= k < |ids| ==> dist[k] == TeamGoalDistribution(events, ids[k])
    ensures var keys := JoinKeys(ids, pairs, counts);
      var rows := JoinGoalRows(ids, dist, pairs, counts);
      && |rows| == |keys|
      && forall i :: 0 <= i < |keys| ==> keys[i].teamName in counts && rows[i] == RowFor(keys[i], events, counts)
    decreases |ids|
  {
    if ids != [] {
      var init, dinit, t := Init(ids), Init(dist), Last(ids);
      assert forall k :: 0 <= k < |init| ==> ids[k] == init[k] && dist[k] == dinit[k];
      JoinGoalRowsKeyed(init, dinit, pairs, counts, events);
      assert Last(dist) == dist[|ids| - 1] == TeamGoalDistribution(events, t);
      NamedRowsKeyed(t, Last(dist), pairs, counts);
      var left, right := JoinKeys(init, pairs, counts), Filter(pairs, Joins(t, counts));
      forall a | 0 <= a < |right| ensures right[a].teamId == t {
        var j := FilterIndex(pairs, Joins(t, counts), a);
      }
      var rows := JoinGoalRows(ids, dist, pairs, counts);
      forall i | |left| <= i < |left| + |right|
        ensures rows[i] == RowFor((left + right)[i], events, counts)
      {
        assert (left + right)[i] == right[i - |left|];
      }
    }
  }

  /** A pair is a key of the joins exactly when its TeamID is one of `ids`,
      it is in the name table and its name has a match count. */
  lemma {:induction false} JoinKeysMembers(ids: seq<int>, pairs: seq<TeamKey>, counts: map<string, nat>, p: TeamKey)
    ensures p in JoinKeys(ids, pairs, counts) <==> p.teamId in ids && p in pairs && p.teamName in counts
    decreases |ids|
  {
    if ids != [] {
      var init, t := Init(ids), Last(ids);
      InitLast(ids);
      JoinKeysMembers(init, pairs, counts, p);
      FilterMembers(pairs, Joins(t, counts), p);
    }
  }

  /** With distinct team ids and distinct pairs, no key occurs twice. */
  lemma {:induction false} JoinKeysNoDuplicates(ids: seq<int>, pairs: seq<TeamKey>, counts: map<string, nat>)
    requires NoDuplicates(ids) && NoDuplicates(pairs)
    ensures NoDuplicates(JoinKeys(ids, pairs, counts))
    decreases |ids|
  {
    if ids != [] {
      var init, t := Init(ids), Last(ids);
      InitLast(ids);
      assert t !in init;
      JoinKeysNoDuplicates(init, pairs, counts);
      var left, right := JoinKeys(init, pairs, counts), Filter(pairs, Joins(t, counts));
      FilterNoDuplicates(pairs, Joins(t, counts));
      forall p | p in left ensures p !in right {
        JoinKeysMembers(init, pairs, counts, p);
        FilterMembers(pairs, Joins(t, counts), p);
      }
      AppendDisjoint(left, right);
    }
  }

  /** The goal table's keys are each qualifying (TeamID, TeamName) pair of
      Match Stats exactly once: no key repeats, and a pair is a key exactly
      when it occurs in Match Stats and its name plays in some match. */
  lemma GoalTableKeysSpec(stats: seq<StatRecord>, info: seq<InfoRecord>)
    ensures NoDuplicates(GoalTableKeys(stats, info))
    ensures forall p :: p in GoalTableKeys(stats, info) <==> HasStatsRow(stats, p) && p.teamName in MatchCounts(info)
  {
    var ids, pairs, counts := TeamIds(stats), IdNamePairs(stats), MatchCounts(info);
    JoinKeysNoDuplicates(ids, pairs, counts);
    forall p ensures p in GoalTableKeys(stats, info) <==> HasStatsRow(stats, p) && p.teamName in counts {
      JoinKeysMembers(ids, pairs, counts, p);
      PairsOfStats(stats, p);
      if HasStatsRow(stats, p) {
        IdsOfPairs(stats, p);
      }
    }
  }

  /** The goal table has exactly one row per key, in key order: the row of
      that pair's name, its TeamID's goal counts and its name's match count. */
  lemma GoalTableRows(stats: seq<StatRecord>, events: seq<EventRecord>, info: seq<InfoRecord>)
    ensures var keys, rows := GoalTableKeys(stats, info), GoalTable(stats, events, info);
      && |rows| == |keys|
      && forall i :: 0 <= i < |keys| ==>
           keys[i].teamName in MatchCounts(info) && rows[i] == RowFor(keys[i], events, MatchCounts(info))
  {
    var ids := TeamIds(stats);
    JoinGoalRowsKeyed(ids, MapSeq(ids, t => TeamGoalDistribution(events, t)), IdNamePairs(stats), MatchCounts(info), events);
  }

  /** A team with no credited goal keeps its row, with zero counts. */
  lemma GoalessTeamKept(stats: seq<StatRecord>, events: seq<EventRecord>, info: seq<InfoRecord>, p: TeamKey)
    requires HasStatsRow(stats, p) && p.teamName in MatchCounts(info)
    requires forall i :: 0 <= i < |events| ==> !CreditsTeam(events[i], p.teamId)
    ensures GoalRow(p.teamName, 0, 0, 0, MatchCounts(info)[p.teamName]) in GoalTable(stats, events, info)
  {
    FilterEmpty(events, e => CreditsTeam(e, p.teamId));
    GoalTableComplete(stats, events, info, p);
  }

  /** Only names that play in some match have a row. */
  lemma RowsHaveMatches(stats: seq<StatRecord>, events: seq<EventRecord>, info: seq<InfoRecord>, r: GoalRow)
    requires r in GoalTable(stats, events, info)
    ensures HomeCount(info, r.teamName) + AwayCount(info, r.teamName) > 0
    ensures r.matchCount == HomeCount(info, r.teamName) + AwayCount(info, r.teamName)
  {
    GoalTableSound(stats, events, info, r);
    MatchCountsSpec(info, r.teamName);
  }
}
