# SportAI preprocessor — a Dafny model

SportAI serves charts about a football tournament. Its `Preprocessor`
reads one workbook with three sheets: "Match Stats", "Match events" and
"Match information". From it the preprocessor builds two per-team tables:

- **The aggregated statistics table.** It holds the mean of eleven tracked
  statistics per team. It also holds "Attempts on target conceded": the
  mean of the "Attempts on target" values that other teams recorded
  against the team.
- **The goal-distribution table.** It holds each team's goals in the first
  half, the second half and overtime, together with the number of matches
  the team played.

Separately, the preprocessor min-max normalises six radar-chart metrics of
a team table into `<metric>_norm` columns. "Less is better" metrics are
inverted. The preprocessor is a process-wide single instance: it loads the
workbook once and hands out copies of its tables.

The model is split into modules:

| module | file | contents |
|---|---|---|
| `Seqs` | `seqs.dfy` | Sequence toolkit: boolean-mask selection (`Filter`), mapping, de-duplication in first-appearance order, sums and means |
| `Sheets` | `sheets.dfy` | The three sheets as sequences of records, and the workbook |
| `GroupBy` | `groupby.dfy` | `groupby(...).mean()` as a one-pass accumulation, checked against a reference list of each key's values |
| `KeyOrder` | `keyorder.dfy` | The order in which the pivot table sorts its index (TeamID, then TeamName by code point) and an insertion sort |
| `Frames` | `frames.dfy` | Team tables as values (`TeamTable`, `TeamRow`, a missing cell is an absent key), column assignment, and the mutable `Frame` class that `copy()` and in-place assignment act on |
| `Aggregation` | `aggregation.dfy` | `_load_and_preprocess_data`: filter, pivot-mean, opponent lookup, conceded mean, left join |
| `Normalization` | `normalization.dfy` | `_normalize_metrics` and `_get_normalized_radar_data` |
| `GoalDistribution` | `goals.dfy` | `_get_team_goal_distribution` and `_get_goal_distribution_df` |
| `Preprocess` | `preprocessor.dfy` | The `Preprocessor` object: `__new__`, `__init__`, the accessors |

The pure pipelines are functions. Each has a reference definition or a
characterisation lemma beside it. The parts of the source that change
state are methods:

- the class attribute `instance` and the `_initialized` guard;
- the loop that fills the goal table team by team;
- the loop that adds `_norm` columns to a copied table.

Each method is proved equal to the function that specifies it.

## Model

| member | source | states |
|---|---|---|
| Preprocess.PreprocessorClass.constructor | src/services/preprocess.py:5 | The class starts with no instance |
| Preprocess.PreprocessorClass.New | src/services/preprocess.py:7-12 | An existing instance is returned unchanged whatever the path. Without one, a missing path fails with `FilePathRequired` and no instance is stored. Otherwise a fresh, uninitialised instance is stored and returned |
| Preprocess.Preprocessor.constructor | src/services/preprocess.py:11 | A bare object without the `_initialized` flag |
| Preprocess.Preprocessor.Initialize | src/services/preprocess.py:14-19 | An initialised object is left exactly as it was and nothing is reloaded. Otherwise a load failure is returned with the object unchanged. A successful load stores fresh frames holding the aggregated table and the goal table computed from the workbook, and marks the object initialised |
| Preprocess.PreprocessorClass.Call | src/services/preprocess.py:7-19 | `Preprocessor(path)` once initialised always returns the same instance and leaves it unchanged, whatever the path. The first call without a path fails. Otherwise the call succeeds exactly when loading the path succeeds. On success it returns the stored instance, now initialised, whose frames hold exactly the aggregated table and the goal table loaded from that path. On failure the instance stays uninitialised |
| Preprocess.LoadFails | src/services/preprocess.py:17-18 | Loading fails exactly when the path is absent or unreadable, or when the Match Stats sheet has no "Attempts on target" record, or when some such record has no row of another team in its match |
| Preprocess.Preprocessor.GetProcessedData | src/services/preprocess.py:21-22 | Returns a fresh frame with the cached table's columns and rows |
| Preprocess.Preprocessor.GetGoalDistributionDf | src/services/preprocess.py:24-25 | Returns a fresh frame with the cached goal table's columns and rows |
| Preprocess.Preprocessor.GetNormalizedRadarData | src/services/preprocess.py:27-28 | Succeeds exactly when the radar normalisation of `df` does, with the same error. On success the result is a fresh frame holding the radar-normalised table |
| Preprocess.ChangeCopy | src/services/preprocess.py:21-22 | Assigning a column to the table a caller was handed changes only that copy. The instance and its cached frame stay unchanged |
| Frames.Frame.Copy | src/services/preprocess.py:103 | `copy()` gives a new frame with equal columns and rows |
| Frames.SetColumn | src/services/preprocess.py:110 | In-place column assignment leaves the frame holding `WithColumn` of its old contents |
| Frames.WithColumnColumns | src/services/preprocess.py:110 | After assigning a column, the columns are the old ones, unchanged and in front, plus the name. No duplicate is introduced, so a name already present is not added again |
| Frames.WithColumnCell | src/services/preprocess.py:110 | Column assignment keeps each row's TeamID and TeamName. The assigned column reads the new values and every other column reads what it read before |
| GroupBy.GroupMean | src/services/preprocess.py:62 | A key has a mean exactly when it has at least one value, and the mean is the arithmetic mean of that key's values in input order |
| GroupBy.GroupAccAt | src/services/preprocess.py:62 | After the one-pass accumulation, a key's running sum and count are the sum and number of its values |
| GroupBy.GroupAccIsSumAndCount | src/services/preprocess.py:62 | The same, for all keys at once |
| KeyOrder.StrLtIrreflexive | src/services/preprocess.py:49-54 | The code-point order on names is irreflexive |
| KeyOrder.StrLtTransitive | src/services/preprocess.py:49-54 | The code-point order on names is transitive |
| KeyOrder.StrLtTotal | src/services/preprocess.py:49-54 | Any two distinct names are ordered |
| KeyOrder.KeyLtIrreflexive | src/services/preprocess.py:49-54 | The (TeamID, TeamName) order is irreflexive |
| KeyOrder.KeyLtTransitive | src/services/preprocess.py:49-54 | The (TeamID, TeamName) order is transitive |
| KeyOrder.KeyLtTotal | src/services/preprocess.py:49-54 | Any two distinct team keys are ordered |
| KeyOrder.InsertKeepsSorted | src/services/preprocess.py:49-54 | Inserting a key into a strictly sorted index keeps it strictly sorted, and adds exactly that key |
| KeyOrder.SortKeysSpec | src/services/preprocess.py:49-54 | The pivot index is strictly sorted, so it has no duplicates, and holds exactly the input keys |
| Seqs.Dedup | src/services/preprocess.py:162 | `unique()` returns no duplicates and exactly the values of its input |
| Seqs.FirstIndexOf | src/services/preprocess.py:162 | The position of the first occurrence of a value: it holds the value and no earlier position does |
| Seqs.DedupOrder | src/services/preprocess.py:162 | `unique()` lists values in the order of their first appearance in the input |
| Seqs.FilterMembers | src/services/preprocess.py:47 | A boolean-mask selection holds exactly the elements that satisfy the mask |
| Aggregation.TrackedKeys | src/services/preprocess.py:47 | After `isin(stats_to_average)`, the team keys left are those of teams with a tracked-statistic record |
| Aggregation.PivotValues | src/services/preprocess.py:47-54 | The values the pivot averages for (team, stat) are that team's values for a tracked stat in sheet order, and none for an untracked stat |
| Aggregation.PivotKeys | src/services/preprocess.py:49-54 | The pivot's row keys are strictly sorted and are exactly the teams with a tracked record |
| Aggregation.PivotCell | src/services/preprocess.py:49-54 | A pivot cell exists exactly when the stat is tracked and has values for the row's team, and then holds their mean |
| Aggregation.PivotColumnOrderNames | src/services/preprocess.py:42-46 | The column order names exactly the eleven tracked statistics |
| Aggregation.PivotColumnOrderAscending | src/services/preprocess.py:49-54 | Consecutive pivot columns are in code-point order |
| Aggregation.PivotColumnOrderSpec | src/services/preprocess.py:49-54 | The pivot column order is strictly increasing, has no duplicates, and holds exactly the tracked statistics |
| Aggregation.TrackedNames | src/services/preprocess.py:47 | The stat names left after the filter are the tracked names that occur in the sheet |
| Aggregation.PivotColumns | src/services/preprocess.py:49-54 | The pivot's columns have no duplicates and are exactly the tracked statistics that occur in the sheet |
| Aggregation.StatValuesFromRecord | src/services/preprocess.py:47 | A statistic with values for some team occurs in the sheet |
| Aggregation.OpponentSpec | src/services/preprocess.py:59 | The lookup fails exactly when no row has the record's MatchID and another TeamID. Otherwise it returns the TeamID of the first such row |
| Aggregation.ResolveOpponentsOk | src/services/preprocess.py:58-61 | The row-by-row lookup over a selection of records succeeds exactly when every record has an opponent. Then it pairs each record, in order, with its opponent and its value |
| Aggregation.OpponentColumnOk | src/services/preprocess.py:56-61 | Building the `OpponentTeamID` column succeeds exactly when the "Attempts on target" selection is not empty and every record in it has an opponent. An empty selection fails, because `apply` then returns a frame, which cannot be assigned to one column. On success each record is paired, in order, with its opponent and its value |
| Aggregation.NoAttemptsExample | src/services/preprocess.py:56-58 | A sheet with tracked records but no "Attempts on target" record fails with `NoAttemptsOnTarget` |
| Aggregation.ResolveOpponentsErr | src/services/preprocess.py:58-61 | On failure the error names the first record without an opponent |
| Aggregation.AggregateFails | src/services/preprocess.py:56-61 | The aggregation fails exactly when the sheet has no "Attempts on target" record, or some such record has no row of another team in its match. With no such record the error is `NoAttemptsOnTarget`. Otherwise the error names a record without an opponent |
| Aggregation.ConcededValuesAreGrouped | src/services/preprocess.py:62 | The values grouped under team T are the "Attempts on target" values whose resolved opponent is T |
| Aggregation.JoinKeepsKeys | src/services/preprocess.py:65 | The left join keeps every pivot row, in order, with its key |
| Aggregation.AggregateRowKeys | src/services/preprocess.py:47-65 | The aggregated table has one row per (TeamID, TeamName) with a tracked-statistic record, no other rows, and rows strictly sorted by key |
| Aggregation.AggregateStatCell | src/services/preprocess.py:42-54 | A statistic cell exists exactly when the statistic is tracked and the team has values for it, and then equals the mean of those values |
| Aggregation.ConcededIsNotTracked | src/services/preprocess.py:63 | The conceded column is not one of the tracked statistics |
| Aggregation.AggregateConcededCell | src/services/preprocess.py:62-65 | "Attempts on target conceded" is present exactly when some attempts value was resolved to the row's team as opponent, and is the mean of those values. It is missing when the team is never an opponent |
| Aggregation.AggregateColumns | src/services/preprocess.py:49-65 | The columns have no duplicates and end with the conceded column. The others are exactly the tracked statistics that occur, so an untracked name never becomes a column |
| Aggregation.AggregateCellsInColumns | src/services/preprocess.py:49-65 | Every cell of a row is under a column of the table |
| Normalization.NormNameInjective | src/services/preprocess.py:110 | Distinct metrics get distinct `_norm` column names |
| Normalization.MinOfSpec | src/services/preprocess.py:106 | `min()` skips missing cells. It is missing exactly when every cell is, is at most every value, and is some row's value |
| Normalization.MaxOfSpec | src/services/preprocess.py:107 | `max()` skips missing cells. It is missing exactly when every cell is, is at least every value, and is some row's value |
| Normalization.RangeIsMinBelowMax | src/services/preprocess.py:106-112 | The column has two different values exactly when min < max |
| Normalization.NormColumnPresence | src/services/preprocess.py:106-112 | A normalised cell exists exactly where the metric has a value and the column is not constant |
| Normalization.NormColumnBounds | src/services/preprocess.py:110-112 | Every normalised value, plain or inverted, lies in [0, 1] |
| Normalization.NormColumnAtMin | src/services/preprocess.py:110-112 | The row at the column minimum maps to 0, or to 1 for a less-is-better metric |
| Normalization.NormColumnAtMax | src/services/preprocess.py:110-112 | The row at the column maximum maps to 1, or to 0 for a less-is-better metric |
| Normalization.NormColumnMonotone | src/services/preprocess.py:110-112 | Normalisation keeps the order of values, and reverses it for a less-is-better metric |
| Normalization.NormalizeMetrics | src/services/preprocess.py:103-114 | The loop on a copy succeeds exactly when the table function does, with the same error. On success it returns a fresh frame equal to the normalised table, and the input frame is never modified |
| Normalization.FirstMissingPersists | src/services/preprocess.py:105-107 | Once a metric is missing, later metrics do not change the outcome |
| Normalization.FirstMissingNone | src/services/preprocess.py:105-107 | No metric is missing exactly when every metric is a column |
| Normalization.NormalizedSucceeds | src/services/preprocess.py:105-107 | Normalisation succeeds exactly when every metric is a column of the table |
| Normalization.FirstMissingSome | src/services/preprocess.py:105-107 | A missing metric reported is not a column, and every metric before it is one |
| Normalization.NormalizedError | src/services/preprocess.py:105-107 | On failure the error names the first metric that is not a column |
| Normalization.NormalizedRows | src/services/preprocess.py:103-114 | Normalisation keeps every row in order, with its TeamID and TeamName |
| Normalization.NormalizedColumns | src/services/preprocess.py:103-114 | The input columns stay in front, unchanged, and no duplicate column is introduced |
| Normalization.NormalizedColumnMember | src/services/preprocess.py:103-114 | The columns afterwards are exactly the input columns and the `_norm` column of each metric |
| Normalization.NormalizedKeepsCells | src/services/preprocess.py:103-114 | Every cell outside the `_norm` columns keeps its value |
| Normalization.NormalizedCell | src/services/preprocess.py:105-112 | The `_norm` column of each metric holds that metric's input column min-max normalised, inverted exactly when the metric is less-is-better |
| Normalization.RadarInversions | src/services/preprocess.py:81-86 | Of the six radar metrics, exactly "Goals conceded" and "Attempts on target conceded" are less-is-better |
| Normalization.RadarCell | src/services/preprocess.py:81-87 | In the radar table, metric k's `_norm` column is its normalised column, inverted exactly for the two conceded metrics |
| Normalization.NormColumnExample | src/services/preprocess.py:112 | The values 1, 3, 5 normalise to 0, 0.5, 1 |
| Normalization.NormColumnInvertedExample | src/services/preprocess.py:110 | The values 1, 3, 5 of a less-is-better metric normalise to 1, 0.5, 0 |
| Normalization.NormColumnMissingExample | src/services/preprocess.py:106-112 | A missing cell stays missing and takes no part in min and max |
| Normalization.NormColumnConstantExample | src/services/preprocess.py:112 | A constant column (0 / 0) has no normalised cells |
| GoalDistribution.DistributionIsTally | src/services/preprocess.py:128-135 | The three bucket counts equal an event-by-event tally, in which a credited event adds one to the bucket of its phase |
| GoalDistribution.BucketsCoverPhasesFromOne | src/services/preprocess.py:133-135 | First Half + Second Half + Overtime is the number of credited events with phase at least 1. Events of any other phase fall into no bucket, so the total never exceeds the credited events |
| GoalDistribution.OwnGoalExample | src/services/preprocess.py:128-131 | A goal, an own goal for the team, and a penalty goal in phase 5 give (1, 1, 1). The conceding side gets nothing |
| GoalDistribution.CountMapped | src/services/preprocess.py:157-159 | Counting a name among the home (or away) names counts the matches with that name on that side |
| GoalDistribution.MatchCountsSpec | src/services/preprocess.py:157-160 | A name has a match count exactly when it is home or away in some match. The count is its home matches plus its away matches |
| GoalDistribution.BuildGoalDistribution | src/services/preprocess.py:164-173 | Filling the per-team counts in place and joining names and match counts yields exactly the goal table |
| GoalDistribution.NamedRowsMembers | src/services/preprocess.py:169-170 | The joins give a team's counts one row per name it has in Match Stats, when that name has a match count |
| GoalDistribution.JoinGoalRowsMembers | src/services/preprocess.py:166-170 | A joined row comes from some team id's counts and one of its names with a match count, and every such combination gives a row |
| GoalDistribution.PairsOfStats | src/services/preprocess.py:154 | `drop_duplicates` keeps exactly the (TeamID, TeamName) pairs that occur in Match Stats |
| GoalDistribution.IdsOfPairs | src/services/preprocess.py:162 | The TeamID of every pair is among the unique team ids |
| GoalDistribution.GoalTableSound | src/services/preprocess.py:153-173 | Every row is the counts of some (TeamID, TeamName) of Match Stats whose name has a match count |
| GoalDistribution.GoalTableComplete | src/services/preprocess.py:153-173 | Every (TeamID, TeamName) of Match Stats whose name plays in Match information has its row |
| GoalDistribution.NamedRowsKeyed | src/services/preprocess.py:169-170 | One team id's joins give one row per pair of that id whose name has a match count, in pair order, each the row of that pair |
| GoalDistribution.JoinGoalRowsKeyed | src/services/preprocess.py:166-170 | The joined rows correspond one to one, in order, to the joined keys. Each row is the goal counts of its key's TeamID, its name and its name's match count |
| GoalDistribution.JoinKeysMembers | src/services/preprocess.py:166-170 | A pair is a joined key exactly when its TeamID is one of the ids, it is one of the (TeamID, TeamName) pairs, and its name has a match count |
| GoalDistribution.JoinKeysNoDuplicates | src/services/preprocess.py:162-170 | With unique ids and de-duplicated pairs, no joined key repeats |
| GoalDistribution.GoalTableKeysSpec | src/services/preprocess.py:153-173 | The goal table's keys hold each (TeamID, TeamName) pair of Match Stats whose name plays in Match information exactly once, and no other pair |
| GoalDistribution.GoalTableRows | src/services/preprocess.py:153-173 | The goal table has one row per key, in key order, and each row is that pair's goal counts with its name's match count. With GoalTableKeysSpec: exactly one row per qualifying (TeamID, TeamName) pair |
| GoalDistribution.GoalTableMembers | src/services/preprocess.py:153-173 | The rows are exactly the counts of the Match Stats teams whose name plays in Match information. Teams that never appear there are dropped by the inner merge |
| GoalDistribution.GoalessTeamKept | src/services/preprocess.py:164-170 | A team with no credited goal keeps a row of zero counts with its match count |
| GoalDistribution.RowsHaveMatches | src/services/preprocess.py:157-170 | Each row's name plays at least one match, and its MatchCount is its home plus away appearances |

## Left out

- Spreadsheet input. `pd.read_excel` is modelled as a lookup in a map from path to `Workbook`. A path that is not in the map, or no path, stands for a read that raises. The source reads the Match Stats sheet twice and re-reads Match events once per team. The model reads each sheet once, since every read of a path returns the same sheet.
- Floating point. Values, means and normalised values are exact `real`s. NaN is modelled as a missing cell, which is an absent key in a row's map. `mean`, `min` and `max` skip missing cells as pandas does. A constant column gives 0 / 0, which is NaN in every row. The model therefore yields missing cells rather than requiring max > min.
- Column-index cosmetics (`columns.name = None`, `rename_axis`, src/services/preprocess.py:66-67) and dtypes. They have no effect on the data.
- Normalising TeamID or TeamName. `TeamTable.columns` lists only the numeric columns after TeamID and TeamName. A metric named after one of those two is treated as a missing column.
- Thread safety of the single instance. The source has no locking.
- Preprocess.Preprocessor.Initialize: a failure while loading the goal table after the aggregated table was built cannot happen in the model, because both are total once the workbook is read. A failure part-way through `__init__` leaves the instance uninitialised, as in the source, and a later call with no path then fails reading.
- GoalDistribution.BuildGoalDistribution: the table that `pd.DataFrame(index=team_ids, ...)` makes starts as NaN cells. The model starts its array with zero counts. Every entry is overwritten before it is read, so the result is the same.
- GoalDistribution.GoalTable: the row order follows the team ids in first-appearance order, then the name table's order. That is the order pandas keeps for inner merges on the left keys. The lemmas state it through `GoalTableKeys`, which lists the pairs in that order, and do not restate it as a sort.
- Aggregation.OpponentSpec: the opponent is the first row of the match with another TeamID, as the code reads `values[0]`. A match with more than two teams is not rejected.
- The pivot table drops rows and columns that are entirely NaN. The model creates rows and columns only for observed (team, statistic) pairs, and the lemmas state this. A sheet without any "Attempts on target" record, which includes one with no tracked rows at all, fails with `NoAttemptsOnTarget`, as the column assignment in the source raises.
- src/graphs.py and src/app.py (chart construction and the web server) are not part of this model.
