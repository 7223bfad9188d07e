/** Stat aggregation (`_load_and_preprocess_data`): keeps the tracked
    statistics, pivots them to one row per (TeamID, TeamName) holding the
    mean of each statistic, resolves the opponent of every "Attempts on
    target" record, averages those values per opponent as "Attempts on
    target conceded" and left-joins that column onto the team rows. */
module Aggregation {
  import opened Seqs
  import opened Sheets
  import opened GroupBy
  import opened KeyOrder
  import opened Frames

  const StatsToAverage: seq<string> := [
    "Goals", "Attempts on target", "Total Attempts", "Attempts blocked",
    "Passes completed", "Goals conceded", "Fouls committed", "Tackles", "Saves",
    "Ball Possession", "Passes accuracy"]

  /** The tracked statistic names in code-point order: the order in which the
      pivot table lists its statistic columns. */
  const PivotColumnOrder: seq<string> := [
    "Attempts blocked", "Attempts on target", "Ball Possession", "Fouls committed",
    "Goals", "Goals conceded", "Passes accuracy", "Passes completed", "Saves",
    "Tackles", "Total Attempts"]

  const AttemptsOnTarget: string := "Attempts on target"
  const AttemptsOnTargetConceded: string := "Attempts on target conceded"

  datatype AggregateError =
    /** `values[0]` on an empty selection: the record's match has no row of
        another team. */
    | OpponentNotFound(matchId: int, teamId: int)
    /** The sheet has no "Attempts on target" record: `apply` on a frame
        without rows returns that frame, and assigning a frame of several
        columns to the single column `OpponentTeamID` raises. */
    | NoAttemptsOnTarget

  predicate IsTracked(r: StatRecord)
  {
    r.statsName in StatsToAverage
  }

  predicate IsAttempts(r: StatRecord)
  {
    r.statsName == AttemptsOnTarget
  }

  function Attempts(stats: seq<StatRecord>): seq<StatRecord>
  {
    Filter(stats, IsAttempts)
  }

  // ---------------------------------------------------------------- pivot

  function StatObservation(r: StatRecord): ((TeamKey, string), real)
  {
    ((KeyOf(r), r.statsName), r.value)
  }

  function StatNameOf(r: StatRecord): string
  {
    r.statsName
  }

  function PivotRow(means: map<(TeamKey, string), real>, k: TeamKey): TeamRow
  {
    TeamRow(k.teamId, k.teamName, map s | s in StatsToAverage && (k, s) in means :: means[(k, s)])
  }

  /** `pivot_table(index=[TeamID, TeamName], columns=StatsName, values=Value,
      aggfunc=mean)` over the tracked records. */
  function PivotTable(tracked: seq<StatRecord>): TeamTable
  {
    var means := GroupMean(MapSeq(tracked, StatObservation));
    var names := MapSeq(tracked, StatNameOf);
    var keys := SortKeys(MapSeq(tracked, KeyOf));
    TeamTable(
      Filter(PivotColumnOrder, s => s in names),
      seq(|keys|, i requires 0 <= i < |keys| => PivotRow(means, keys[i])))
  }

  // ---------------------------------------------------- opponent resolution

  /** A row of the same match that belongs to a different team. */
  predicate IsOpponentRow(row: StatRecord, r: StatRecord)
  {
    row.matchId == r.matchId && row.teamId != r.teamId
  }

  /** The TeamID of the first Match Stats row of the same match and another
      team (`values[0]` of that selection), if there is one. */
  function Opponent(stats: seq<StatRecord>, r: StatRecord): Option<int>
  {
    var candidates := Filter(stats, row => IsOpponentRow(row, r));
    if candidates == [] then None else Some(candidates[0].teamId)
  }

  /** There is no opponent exactly when no row of the match belongs to
      another team; otherwise the opponent is the team of the first such row. */
  lemma OpponentSpec(stats: seq<StatRecord>, r: StatRecord)
    ensures Opponent(stats, r).None? <==> forall j :: 0 <= j < |stats| ==> !IsOpponentRow(stats[j], r)
    ensures Opponent(stats, r).Some? ==>
      exists i ::
        && 0 <= i < |stats| && IsOpponentRow(stats[i], r) && stats[i].teamId == Opponent(stats, r).value
        && forall j :: 0 <= j < i ==> !IsOpponentRow(stats[j], r)
  {
    var p := (row: StatRecord) => IsOpponentRow(row, r);
    FilterEmpty(stats, p);
    if Filter(stats, p) != [] {
      var i := FilterFirst(stats, p);
    }
  }

  /** Attaches its opponent to every "Attempts on target" record, row by row;
      the first record without one aborts the whole load. */
  function ResolveOpponents(stats: seq<StatRecord>, attempts: seq<StatRecord>)
    : Result<seq<(int, real)>, AggregateError>
  {
    if attempts == [] then Ok([])
    else
      match ResolveOpponents(stats, Init(attempts))
      case Err(e) => Err(e)
      case Ok(obs) =>
        var r := Last(attempts);
        match Opponent(stats, r)
        case None => Err(OpponentNotFound(r.matchId, r.teamId))
        case Some(t) => Ok(obs + [(t, r.value)])
  }

  /** The `OpponentTeamID` column assignment: it fails on an empty selection,
      and otherwise resolves the records row by row. */
  function OpponentColumn(stats: seq<StatRecord>, attempts: seq<StatRecord>)
    : Result<seq<(int, real)>, AggregateError>
  {
    if attempts == [] then Err(NoAttemptsOnTarget) else ResolveOpponents(stats, attempts)
  }

  predicate HasOpponent(stats: seq<StatRecord>, r: StatRecord)
  {
    Opponent(stats, r).Some?
  }

  /** Resolution succeeds exactly when every record has an opponent, and then
      pairs each record's value with its opponent, in order. */
  lemma {:induction false} ResolveOpponentsOk(stats: seq<StatRecord>, attempts: seq<StatRecord>)
    ensures ResolveOpponents(stats, attempts).Ok? <==>
      forall i :: 0 <= i < |attempts| ==> HasOpponent(stats, attempts[i])
    ensures ResolveOpponents(stats, attempts).Ok? ==>
      var obs := ResolveOpponents(stats, attempts).value;
      |obs| == |attempts| &&
      forall i :: 0 <= i < |attempts| ==>
        obs[i] == (Opponent(stats, attempts[i]).value, attempts[i].value)
    decreases |attempts|
  {
    if attempts != [] {
      var init, x := Init(attempts), Last(attempts);
      ResolveOpponentsOk(stats, init);
      assert forall i :: 0 <= i < |init| ==> attempts[i] == init[i];
      assert attempts[|attempts| - 1] == x;
    }
  }

  /** On failure the error names the first record without an opponent. */
  lemma {:induction false} ResolveOpponentsErr(stats: seq<StatRecord>, attempts: seq<StatRecord>)
    requires ResolveOpponents(stats, attempts).Err?
    ensures exists i ::
      && 0 <= i < |attempts|
      && !HasOpponent(stats, attempts[i])
      && ResolveOpponents(stats, attempts).error == OpponentNotFound(attempts[i].matchId, attempts[i].teamId)
      && forall j :: 0 <= j < i ==> HasOpponent(stats, attempts[j])
    decreases |attempts|
  {
    var init, x := Init(attempts), Last(attempts);
    assert forall i :: 0 <= i < |init| ==> attempts[i] == init[i];
    if ResolveOpponents(stats, init).Err? {
      ResolveOpponentsErr(stats, init);
    } else {
      ResolveOpponentsOk(stats, init);
      assert attempts[|attempts| - 1] == x;
    }
  }

  // ------------------------------------------------------------ the table

  /** The left join: a team row gains the conceded cell when its TeamID was
      some record's opponent, and a missing cell otherwise. */
  function MergeConceded(row: TeamRow, conceded: map<int, real>): TeamRow
  {
    if row.teamId in conceded
    then row.(cells := row.cells[AttemptsOnTargetConceded := conceded[row.teamId]])
    else row
  }

  /** `pivot.merge(conceded, on=TeamID, how=left)`. */
  function JoinConceded(pivot: TeamTable, conceded: map<int, real>): TeamTable
  {
    TeamTable(
      pivot.columns + [AttemptsOnTargetConceded],
      seq(|pivot.rows|, i requires 0 <= i < |pivot.rows| => MergeConceded(pivot.rows[i], conceded)))
  }

  function Aggregate(stats: seq<StatRecord>): Result<TeamTable, AggregateError>
  {
    var pivot := PivotTable(Filter(stats, IsTracked));
    match OpponentColumn(stats, Attempts(stats))
    case Err(e) => Err(e)
    case Ok(obs) => Ok(JoinConceded(pivot, GroupMean(obs)))
  }

  // ------------------------------------------------- reference definitions

  /** The Value of every record of team `k` for statistic `s`, in order. */
  function StatValues(stats: seq<StatRecord>, k: TeamKey, s: string): seq<real>
  {
    if stats == [] then []
    else
      StatValues(Init(stats), k, s) +
        (if KeyOf(Last(stats)) == k && Last(stats).statsName == s then [Last(stats).value] else [])
  }

  /** The "Attempts on target" values whose resolved opponent is team `t`. */
  function ConcededValues(stats: seq<StatRecord>, attempts: seq<StatRecord>, t: int): seq<real>
  {
    if attempts == [] then []
    else
      ConcededValues(stats, Init(attempts), t) +
        (if Opponent(stats, Last(attempts)) == Some(t) then [Last(attempts).value] else [])
  }

  // ---------------------------------------------------------------- proofs

  /** What the pivot groups under (team, statistic) is exactly that team's
      values for that statistic when it is tracked, and nothing otherwise. */
  lemma {:induction false} PivotValues(stats: seq<StatRecord>, k: TeamKey, s: string)
    ensures GroupValues(MapSeq(Filter(stats, IsTracked), StatObservation), (k, s)) ==
      if s in StatsToAverage then StatValues(stats, k, s) else []
    decreases |stats|
  {
    if stats != [] {
      var init, x := Init(stats), Last(stats);
      PivotValues(init, k, s);
      InitLast(stats);
      FilterSnoc(init, x, IsTracked);
      var tracked := Filter(init, IsTracked);
      if IsTracked(x) {
        MapSeqAppend(tracked, [x], StatObservation);
        GroupValuesSnoc(MapSeq(tracked, StatObservation), StatObservation(x), (k, s));
      } else {
        assert Filter(stats, IsTracked) == tracked;
      }
    }
  }

  lemma {:induction false} ConcededValuesAreGrouped(stats: seq<StatRecord>, attempts: seq<StatRecord>, t: int)
    requires ResolveOpponents(stats, attempts).Ok?
    ensures GroupValues(ResolveOpponents(stats, attempts).value, t) == ConcededValues(stats, attempts, t)
    decreases |attempts|
  {
    if attempts != [] {
      ConcededValuesAreGrouped(stats, Init(attempts), t);
      var obs := ResolveOpponents(stats, Init(attempts)).value;
      var r := Last(attempts);
      GroupValuesSnoc(obs, (Opponent(stats, r).value, r.value), t);
    }
  }

  /** The opponent column is built exactly when there is at least one record
      and every record has an opponent; it then pairs each record's value
      with its opponent, in order. */
  lemma OpponentColumnOk(stats: seq<StatRecord>, attempts: seq<StatRecord>)
    ensures OpponentColumn(stats, attempts).Ok? <==>
      attempts != [] && forall i :: 0 <= i < |attempts| ==> HasOpponent(stats, attempts[i])
    ensures OpponentColumn(stats, attempts).Ok? ==>
      var obs := OpponentColumn(stats, attempts).value;
      |obs| == |attempts| &&
      forall i :: 0 <= i < |attempts| ==>
        obs[i] == (Opponent(stats, attempts[i]).value, attempts[i].value)
  {
    ResolveOpponentsOk(stats, attempts);
  }

  /** The load fails exactly when the sheet has no "Attempts on target"
      record, or when one of them has no row of another team in its match;
      the error says which. */
  lemma AggregateFails(stats: seq<StatRecord>)
    ensures Aggregate(stats).Err? <==>
      || (forall i :: 0 <= i < |stats| ==> !IsAttempts(stats[i]))
      || exists i :: 0 <= i < |stats| && IsAttempts(stats[i]) &&
           forall j :: 0 <= j < |stats| ==> !IsOpponentRow(stats[j], stats[i])
    ensures (forall i :: 0 <= i < |stats| ==> !IsAttempts(stats[i])) ==>
      Aggregate(stats) == Err(NoAttemptsOnTarget)
    ensures Aggregate(stats).Err? && Aggregate(stats).error != NoAttemptsOnTarget ==>
      exists i ::
        && 0 <= i < |stats|
        && IsAttempts(stats[i])
        && (forall j :: 0 <= j < |stats| ==> !IsOpponentRow(stats[j], stats[i]))
        && Aggregate(stats).error == OpponentNotFound(stats[i].matchId, stats[i].teamId)
  {
    var attempts := Attempts(stats);
    FilterEmpty(stats, IsAttempts);
    if attempts != [] {
      ResolveOpponentsOk(stats, attempts);
      if ResolveOpponents(stats, attempts).Err? {
        ResolveOpponentsErr(stats, attempts);
        var i :| 0 <= i < |attempts| && !HasOpponent(stats, attempts[i]) &&
          Aggregate(stats).error == OpponentNotFound(attempts[i].matchId, attempts[i].teamId);
        var j := FilterIndex(stats, IsAttempts, i);
        OpponentSpec(stats, stats[j]);
      } else {
        forall i | 0 <= i < |stats| && IsAttempts(stats[i])
          ensures exists j :: 0 <= j < |stats| && IsOpponentRow(stats[j], stats[i])
        {
          var a := IndexFilter(stats, IsAttempts, i);
          assert HasOpponent(stats, attempts[a]);
          OpponentSpec(stats, stats[i]);
        }
      }
    }
  }

  /** Two teams with goals but no "Attempts on target" record: the load
      fails at the opponent column. */
  lemma NoAttemptsExample()
    ensures Aggregate([StatRecord(1, 1, "A", "Goals", 1.0), StatRecord(1, 2, "B", "Goals", 2.0)]) ==
      Err(NoAttemptsOnTarget)
  {
    AggregateFails([StatRecord(1, 1, "A", "Goals", 1.0), StatRecord(1, 2, "B", "Goals", 2.0)]);
  }

  /** The successful result, named by its parts. */
  lemma AggregateOkParts(stats: seq<StatRecord>)
    requires Aggregate(stats).Ok?
    ensures Attempts(stats) != [] && ResolveOpponents(stats, Attempts(stats)).Ok?
    ensures Aggregate(stats).value ==
      JoinConceded(PivotTable(Filter(stats, IsTracked)), GroupMean(ResolveOpponents(stats, Attempts(stats)).value))
  {
  }

  /** The pivot lists one row per sorted key, each row carrying its key. */
  lemma PivotRowKeys(tracked: seq<StatRecord>)
    ensures var keys := SortKeys(MapSeq(tracked, KeyOf));
      var rows := PivotTable(tracked).rows;
      |rows| == |keys| && forall i :: 0 <= i < |rows| ==> RowKey(rows[i]) == keys[i]
  {
  }

  /** Some tracked record of `stats` belongs to team `k`. */
  predicate HasTrackedRecord(stats: seq<StatRecord>, k: TeamKey)
  {
    exists j :: 0 <= j < |stats| && KeyOf(stats[j]) == k && IsTracked(stats[j])
  }

  lemma TrackedKeys(stats: seq<StatRecord>, k: TeamKey)
    ensures k in MapSeq(Filter(stats, IsTracked), KeyOf) <==> HasTrackedRecord(stats, k)
  {
    var tracked := Filter(stats, IsTracked);
    var keys := MapSeq(tracked, KeyOf);
    if HasTrackedRecord(stats, k) {
      var j :| 0 <= j < |stats| && KeyOf(stats[j]) == k && IsTracked(stats[j]);
      var a := IndexFilter(stats, IsTracked, j);
      assert keys[a] == k;
    }
    if k in keys {
      var a :| 0 <= a < |keys| && keys[a] == k;
      var j := FilterIndex(stats, IsTracked, a);
    }
  }

  /** The pivot has one row per team with a tracked record, in strictly
      increasing (TeamID, TeamName) order. */
  lemma PivotKeys(stats: seq<StatRecord>)
    ensures var keys := MapSeq(PivotTable(Filter(stats, IsTracked)).rows, RowKey);
      && StrictlySorted(keys)
      && forall k :: k in keys <==> HasTrackedRecord(stats, k)
  {
    var tracked := Filter(stats, IsTracked);
    var sorted := SortKeys(MapSeq(tracked, KeyOf));
    PivotRowKeys(tracked);
    SortKeysSpec(MapSeq(tracked, KeyOf));
    assert MapSeq(PivotTable(tracked).rows, RowKey) == sorted;
    forall k ensures k in sorted <==> HasTrackedRecord(stats, k) {
      TrackedKeys(stats, k);
    }
  }

  /** The join keeps the rows, their order and their keys. */
  lemma JoinKeepsKeys(pivot: TeamTable, conceded: map<int, real>)
    ensures MapSeq(JoinConceded(pivot, conceded).rows, RowKey) == MapSeq(pivot.rows, RowKey)
  {
    var rows := JoinConceded(pivot, conceded).rows;
    assert |rows| == |pivot.rows|;
    assert forall i :: 0 <= i < |rows| ==> RowKey(rows[i]) == RowKey(pivot.rows[i]);
  }

  /** One row per (TeamID, TeamName) that has a tracked record, in
      increasing (TeamID, TeamName) order, so no team appears twice. */
  lemma AggregateRowKeys(stats: seq<StatRecord>)
    requires Aggregate(stats).Ok?
    ensures forall k :: k in MapSeq(Aggregate(stats).value.rows, RowKey) <==> HasTrackedRecord(stats, k)
    ensures StrictlySorted(MapSeq(Aggregate(stats).value.rows, RowKey))
  {
    var pivot := PivotTable(Filter(stats, IsTracked));
    AggregateOkParts(stats);
    JoinKeepsKeys(pivot, GroupMean(ResolveOpponents(stats, Attempts(stats)).value));
    PivotKeys(stats);
  }

  lemma PivotCell(tracked: seq<StatRecord>, i: int, s: string)
    requires 0 <= i < |PivotTable(tracked).rows|
    ensures var row := PivotTable(tracked).rows[i];
      var obs := MapSeq(tracked, StatObservation);
      && (s in row.cells <==> s in StatsToAverage && |GroupValues(obs, (RowKey(row), s))| > 0)
      && (s in row.cells ==> row.cells[s] == Mean(GroupValues(obs, (RowKey(row), s))))
  {
    PivotRowKeys(tracked);
  }

  /** Every statistic cell of a row is the arithmetic mean of that team's
      values for that statistic; a cell exists exactly for the tracked
      statistics the team has values for. */
  lemma AggregateStatCell(stats: seq<StatRecord>, i: int, s: string)
    requires Aggregate(stats).Ok?
    requires 0 <= i < |Aggregate(stats).value.rows|
    requires s != AttemptsOnTargetConceded
    ensures var row := Aggregate(stats).value.rows[i];
      && (s in row.cells <==> s in StatsToAverage && |StatValues(stats, RowKey(row), s)| > 0)
      && (s in row.cells ==> row.cells[s] == Mean(StatValues(stats, RowKey(row), s)))
  {
    var tracked := Filter(stats, IsTracked);
    AggregateOkParts(stats);
    var pivotRow := PivotTable(tracked).rows[i];
    PivotCell(tracked, i, s);
    PivotValues(stats, RowKey(pivotRow), s);
  }

  /** The conceded cell of a team is the mean of the "Attempts on target"
      values whose resolved opponent is that team, and is missing when the
      team is nobody's opponent. */
  lemma AggregateConcededCell(stats: seq<StatRecord>, i: int)
    requires Aggregate(stats).Ok?
    requires 0 <= i < |Aggregate(stats).value.rows|
    ensures var row := Aggregate(stats).value.rows[i];
      var vs := ConcededValues(stats, Attempts(stats), row.teamId);
      && (AttemptsOnTargetConceded in row.cells <==> |vs| > 0)
      && (|vs| > 0 ==> row.cells[AttemptsOnTargetConceded] == Mean(vs))
  {
    var tracked := Filter(stats, IsTracked);
    AggregateOkParts(stats);
    var pivotRow := PivotTable(tracked).rows[i];
    ConcededIsNotTracked();
    PivotCell(tracked, i, AttemptsOnTargetConceded);
    ConcededValuesAreGrouped(stats, Attempts(stats), pivotRow.teamId);
  }

  /** Some record of `stats` carries statistic name `c`. */
  predicate HasRecordNamed(stats: seq<StatRecord>, c: string)
  {
    exists j :: 0 <= j < |stats| && stats[j].statsName == c
  }

  /** The column order lists each tracked statistic exactly once, in strictly
      increasing code-point order. */
  lemma PivotColumnOrderSpec()
    ensures NoDuplicates(PivotColumnOrder)
    ensures forall i, j :: 0 <= i < j < |PivotColumnOrder| ==> StrLt(PivotColumnOrder[i], PivotColumnOrder[j])
    ensures forall c :: c in PivotColumnOrder <==> c in StatsToAverage
  {
    PivotColumnOrderAscending();
    forall i, j | 0 <= i < j < |PivotColumnOrder|
      ensures StrLt(PivotColumnOrder[i], PivotColumnOrder[j])
    {
      StrLtChain(PivotColumnOrder, i, j);
    }
    forall i, j | 0 <= i < j < |PivotColumnOrder|
      ensures PivotColumnOrder[i] != PivotColumnOrder[j]
    {
      StrLtIrreflexive(PivotColumnOrder[i]);
    }
    PivotColumnOrderNames();
  }

  lemma PivotColumnOrderAscending()
    ensures forall k :: 0 <= k < |PivotColumnOrder| - 1 ==> StrLt(PivotColumnOrder[k], PivotColumnOrder[k + 1])
  {
    forall k | 0 <= k < |PivotColumnOrder| - 1
      ensures StrLt(PivotColumnOrder[k], PivotColumnOrder[k + 1])
    {
      if k == 0 {
        StrLtAfterPrefix(PivotColumnOrder[0], PivotColumnOrder[1], 9);
      } else if k == 1 {
        StrLtAfterPrefix(PivotColumnOrder[1], PivotColumnOrder[2], 0);
      } else if k == 2 {
        StrLtAfterPrefix(PivotColumnOrder[2], PivotColumnOrder[3], 0);
      } else if k == 3 {
        StrLtAfterPrefix(PivotColumnOrder[3], PivotColumnOrder[4], 0);
      } else if k == 4 {
        StrLtAfterPrefix(PivotColumnOrder[4], PivotColumnOrder[5], 5);
      } else if k == 5 {
        StrLtAfterPrefix(PivotColumnOrder[5], PivotColumnOrder[6], 0);
      } else if k == 6 {
        StrLtAfterPrefix(PivotColumnOrder[6], PivotColumnOrder[7], 7);
      } else if k == 7 {
        StrLtAfterPrefix(PivotColumnOrder[7], PivotColumnOrder[8], 0);
      } else if k == 8 {
        StrLtAfterPrefix(PivotColumnOrder[8], PivotColumnOrder[9], 0);
      } else if k == 9 {
        StrLtAfterPrefix(PivotColumnOrder[9], PivotColumnOrder[10], 1);
      }
    }
  }

  lemma PivotColumnOrderNames()
    ensures forall c :: c in PivotColumnOrder <==> c in StatsToAverage
  {
  }

  lemma {:induction false} StrLtChain(xs: seq<string>, i: int, j: int)
    requires forall k :: 0 <= k < |xs| - 1 ==> StrLt(xs[k], xs[k + 1])
    requires 0 <= i < j < |xs|
    ensures StrLt(xs[i], xs[j])
    decreases j - i
  {
    if i + 1 < j {
      StrLtChain(xs, i + 1, j);
      StrLtTransitive(xs[i], xs[i + 1], xs[j]);
    }
  }

  lemma ConcededIsNotTracked()
    ensures AttemptsOnTargetConceded !in StatsToAverage
  {
  }

  lemma TrackedNames(stats: seq<StatRecord>, c: string)
    ensures c in MapSeq(Filter(stats, IsTracked), StatNameOf) <==>
      c in StatsToAverage && HasRecordNamed(stats, c)
  {
    var tracked := Filter(stats, IsTracked);
    var names := MapSeq(tracked, StatNameOf);
    if c in StatsToAverage && HasRecordNamed(stats, c) {
      var j :| 0 <= j < |stats| && stats[j].statsName == c;
      var a := IndexFilter(stats, IsTracked, j);
      assert names[a] == StatNameOf(tracked[a]);
    }
    if c in names {
      var a :| 0 <= a < |names| && names[a] == c;
      var j := FilterIndex(stats, IsTracked, a);
      assert names[a] == StatNameOf(tracked[a]);
    }
  }

  /** The statistic columns of the pivot: the tracked names that occur, each
      once, in code-point order. */
  lemma PivotColumns(stats: seq<StatRecord>)
    ensures var cols := PivotTable(Filter(stats, IsTracked)).columns;
      && NoDuplicates(cols)
      && (forall c :: c in cols <==> c in StatsToAverage && HasRecordNamed(stats, c))
  {
    var names := MapSeq(Filter(stats, IsTracked), StatNameOf);
    var p := (s: string) => s in names;
    var cols := Filter(PivotColumnOrder, p);
    assert PivotTable(Filter(stats, IsTracked)).columns == cols;
    PivotColumnOrderSpec();
    FilterNoDuplicates(PivotColumnOrder, p);
    forall c ensures c in cols <==> c in StatsToAverage && HasRecordNamed(stats, c) {
      FilterMembers(PivotColumnOrder, p, c);
      TrackedNames(stats, c);
    }
  }

  /** The columns are the tracked statistic names that occur, each once, in
      code-point order, followed by the conceded column. */
  lemma AggregateColumns(stats: seq<StatRecord>)
    requires Aggregate(stats).Ok?
    ensures var cols := Aggregate(stats).value.columns;
      && |cols| > 0 && Last(cols) == AttemptsOnTargetConceded
      && NoDuplicates(cols)
      && (forall c :: c in cols <==>
            c == AttemptsOnTargetConceded || (c in StatsToAverage && HasRecordNamed(stats, c)))
  {
    var pivotColumns := PivotTable(Filter(stats, IsTracked)).columns;
    AggregateOkParts(stats);
    assert Aggregate(stats).value.columns == pivotColumns + [AttemptsOnTargetConceded];
    PivotColumns(stats);
    ConcededIsNotTracked();
    assert AttemptsOnTargetConceded !in pivotColumns;
    AppendFresh(pivotColumns, AttemptsOnTargetConceded);
  }

  /** Every cell of a row lies in one of the table's columns. */
  lemma AggregateCellsInColumns(stats: seq<StatRecord>, i: int, c: string)
    requires Aggregate(stats).Ok?
    requires 0 <= i < |Aggregate(stats).value.rows|
    requires c in Aggregate(stats).value.rows[i].cells
    ensures c in Aggregate(stats).value.columns
  {
    AggregateColumns(stats);
    if c != AttemptsOnTargetConceded {
      var row := Aggregate(stats).value.rows[i];
      AggregateStatCell(stats, i, c);
      StatValuesFromRecord(stats, RowKey(row), c);
    }
  }

  lemma {:induction false} StatValuesFromRecord(stats: seq<StatRecord>, k: TeamKey, s: string)
    requires StatValues(stats, k, s) != []
    ensures HasRecordNamed(stats, s)
    decreases |stats|
  {
    InitLast(stats);
    if StatValues(Init(stats), k, s) != [] {
      StatValuesFromRecord(Init(stats), k, s);
      var j :| 0 <= j < |Init(stats)| && Init(stats)[j].statsName == s;
      assert stats[j] == Init(stats)[j];
    } else {
      assert stats[|stats| - 1].statsName == s;
    }
  }
}
