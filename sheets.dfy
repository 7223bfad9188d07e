/** The three sheets of the tournament workbook, one datatype per row kind. */
module Sheets {

  /** A "Match Stats" row: one statistic of one team in one match. */
  datatype StatRecord = StatRecord(
    matchId: int,
    teamId: int,
    teamName: string,
    statsName: string,
    value: real)

  /** A "Match events" row: one in-match event; phase 1 is the first half,
      2 the second half, 3 and above overtime and penalties. */
  datatype EventRecord = EventRecord(
    matchId: int,
    teamFromId: int,
    teamToId: int,
    event: string,
    phase: int)

  /** A "Match information" row: the two sides of one match. */
  datatype InfoRecord = InfoRecord(homeTeamName: string, awayTeamName: string)

  /** The whole workbook, standing for the file the source reads. */
  datatype Workbook = Workbook(
    matchStats: seq<StatRecord>,
    matchEvents: seq<EventRecord>,
    matchInformation: seq<InfoRecord>)

  /** The (TeamID, TeamName) pair that indexes the per-team tables. */
  datatype TeamKey = TeamKey(teamId: int, teamName: string)

  function KeyOf(r: StatRecord): TeamKey
  {
    TeamKey(r.teamId, r.teamName)
  }
}
