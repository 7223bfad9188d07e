/** The tables the preprocessor produces and hands out. A team table row
    carries TeamID and TeamName and a map from column name to value; a
    column name missing from a row's map is a missing (NaN) cell. A `Frame`
    is a mutable table object, so that taking a copy and changing a column in
    place are the operations they are in the source. */
module Frames {
  import opened Seqs
  import opened Sheets

  datatype TeamRow = TeamRow(teamId: int, teamName: string, cells: map<string, real>)

  /** `columns` lists the numeric columns that follow TeamID and TeamName. */
  datatype TeamTable = TeamTable(columns: seq<string>, rows: seq<TeamRow>)

  /** One row of the goal-distribution table, indexed by team name. */
  datatype GoalRow = GoalRow(
    teamName: string,
    firstHalf: nat,
    secondHalf: nat,
    overtime: nat,
    matchCount: nat)

  /** The (TeamID, TeamName) key of a row. */
  function RowKey(row: TeamRow): TeamKey
  {
    TeamKey(row.teamId, row.teamName)
  }

  /** The cell of column `c`, None when it is missing. */
  function Cell(row: TeamRow, c: string): Option<real>
  {
    if c in row.cells then Some(row.cells[c]) else None
  }

  function SetCell(row: TeamRow, name: string, v: Option<real>): TeamRow
  {
    match v
    case Some(x) => row.(cells := row.cells[name := x])
    case None => row.(cells := row.cells - {name})
  }

  /** `df[name] = column`: the column is appended when it is new and
      overwritten where it stands otherwise; every row takes its cell from
      `col` (None is a missing cell). */
  function WithColumn(t: TeamTable, name: string, col: seq<Option<real>>): (r: TeamTable)
    requires |col| == |t.rows|
    ensures r.columns == if name in t.columns then t.columns else t.columns + [name]
    ensures |r.rows| == |t.rows|
  {
    TeamTable(
      if name in t.columns then t.columns else t.columns + [name],
      seq(|t.rows|, i requires 0 <= i < |t.rows| => SetCell(t.rows[i], name, col[i])))
  }

  /** Column assignment keeps each row's TeamID and TeamName; the assigned
      column reads `col` and every other column reads what it read before. */
  lemma WithColumnCell(t: TeamTable, name: string, col: seq<Option<real>>, i: int, c: string)
    requires |col| == |t.rows| && 0 <= i < |t.rows|
    ensures WithColumn(t, name, col).rows[i].teamId == t.rows[i].teamId
    ensures WithColumn(t, name, col).rows[i].teamName == t.rows[i].teamName
    ensures Cell(WithColumn(t, name, col).rows[i], c) == if c == name then col[i] else Cell(t.rows[i], c)
  {
  }

  /** Column assignment adds exactly the assigned name to the columns, keeps
      the existing columns in front and in order, and never duplicates one. */
  lemma WithColumnColumns(t: TeamTable, name: string, col: seq<Option<real>>)
    requires |col| == |t.rows|
    ensures var cols := WithColumn(t, name, col).columns;
      && (forall c :: c in cols <==> c in t.columns || c == name)
      && |t.columns| <= |cols| && cols[..|t.columns|] == t.columns
      && (NoDuplicates(t.columns) ==> NoDuplicates(cols))
  {
    if name !in t.columns {
      assert (t.columns + [name])[..|t.columns|] == t.columns;
      if NoDuplicates(t.columns) {
        AppendFresh(t.columns, name);
      }
    }
  }

  class Frame<R> {
    var columns: seq<string>
    var rows: seq<R>

    constructor (columns: seq<string>, rows: seq<R>)
      ensures this.columns == columns && this.rows == rows
    {
      this.columns := columns;
      this.rows := rows;
    }

    /** `df.copy()`: a new frame with the same contents. */
    method Copy() returns (c: Frame<R>)
      ensures fresh(c)
      ensures c.columns == columns && c.rows == rows
    {
      c := new Frame(columns, rows);
    }
  }

  /** Assigns a whole column of a team frame in place. */
  method SetColumn(f: Frame<TeamRow>, name: string, col: seq<Option<real>>)
    requires |col| == |f.rows|
    modifies f
    ensures TeamTable(f.columns, f.rows) == WithColumn(old(TeamTable(f.columns, f.rows)), name, col)
  {
    var t := WithColumn(TeamTable(f.columns, f.rows), name, col);
    f.columns, f.rows := t.columns, t.rows;
  }
}
