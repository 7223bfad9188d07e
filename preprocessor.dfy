/** The `Preprocessor` object: a process-wide single instance that loads the
    workbook once, keeps the aggregated team table and the goal-distribution
    table, and hands out copies of them. The class attribute `instance` is
    the field of `PreprocessorClass`; `__new__` and `__init__` are its
    methods `New` and `Initialize`, and a call `Preprocessor(file_path)` is
    `Call`. Files are a map from path to workbook, standing for what
    `read_excel` can read. */
module Preprocess {
  import opened Seqs
  import opened Sheets
  import opened Frames
  import opened Aggregation
  import opened Normalization
  import opened GoalDistribution

  datatype InitError =
    | FilePathRequired               // first construction without a path
    | SourceUnreadable               // read_excel on a missing path or on None
    | LoadFailed(cause: AggregateError)

  /** The columns of the goal-distribution table after its index. */
  const GoalColumns: seq<string> := ["First Half", "Second Half", "Overtime", "MatchCount"]

  /** What `__init__` computes from the file: the aggregated table and the
      goal-distribution rows, or the first error on the way. */
  function Load(path: Option<string>, files: map<string, Workbook>): Result<(TeamTable, seq<GoalRow>), InitError>
  {
    if path.None? || path.value !in files then Err(SourceUnreadable)
    else
      var wb := files[path.value];
      match Aggregate(wb.matchStats)
      case Err(e) => Err(LoadFailed(e))
      case Ok(t) => Ok((t, GoalTable(wb.matchStats, wb.matchEvents, wb.matchInformation)))
  }

  /** Loading fails exactly when the path is missing or unreadable, when the
      Match Stats sheet has no "Attempts on target" record, or when one of
      them has no opponent in its match. */
  lemma LoadFails(path: Option<string>, files: map<string, Workbook>)
    ensures Load(path, files).Err? <==>
      || path.None? || path.value !in files
      || (forall i :: 0 <= i < |files[path.value].matchStats| ==> !IsAttempts(files[path.value].matchStats[i]))
      || exists i :: 0 <= i < |files[path.value].matchStats| && IsAttempts(files[path.value].matchStats[i]) &&
           forall j :: 0 <= j < |files[path.value].matchStats| ==>
             !IsOpponentRow(files[path.value].matchStats[j], files[path.value].matchStats[i])
  {
    if path.Some? && path.value in files {
      var stats := files[path.value].matchStats;
      assert Load(path, files).Err? <==> Aggregate(stats).Err?;
      AggregateFails(stats);
    }
  }

  class Preprocessor {
    var initialized: bool
    var processedData: Frame?<TeamRow>
    var goalDistributionDf: Frame?<GoalRow>

    ghost predicate Valid()
      reads this
    {
      initialized ==> processedData != null && goalDistributionDf != null
    }

    /** `object.__new__`: a bare object without the `_initialized` flag. */
    constructor ()
      ensures Valid() && !initialized
    {
      initialized := false;
      processedData := null;
      goalDistributionDf := null;
    }

    /** `__init__`: does nothing on an initialised object; otherwise loads
        both tables and marks the object initialised, or fails and leaves the
        object as it was. */
    method Initialize(path: Option<string>, files: map<string, Workbook>) returns (r: Result<(), InitError>)
      requires Valid()
      modifies this
      ensures Valid()
      ensures old(initialized) ==> r.Ok? && unchanged(this)
      ensures !old(initialized) && Load(path, files).Err? ==>
        r == Err(Load(path, files).error) && unchanged(this)
      ensures !old(initialized) && Load(path, files).Ok? ==>
        && r.Ok? && initialized
        && fresh(processedData) && fresh(goalDistributionDf)
        && TeamTable(processedData.columns, processedData.rows) == Load(path, files).value.0
        && goalDistributionDf.columns == GoalColumns
        && goalDistributionDf.rows == Load(path, files).value.1
    {
      if initialized {
        return Ok(());
      }
      if path.None? || path.value !in files {
        return Err(SourceUnreadable);
      }
      var wb := files[path.value];
      var aggregated := Aggregate(wb.matchStats);
      if aggregated.Err? {
        return Err(LoadFailed(aggregated.error));
      }
      var goalRows := BuildGoalDistribution(wb.matchStats, wb.matchEvents, wb.matchInformation);
      assert Load(path, files) == Ok((aggregated.value, goalRows));
      processedData := new Frame(aggregated.value.columns, aggregated.value.rows);
      goalDistributionDf := new Frame(GoalColumns, goalRows);
      initialized := true;
      r := Ok(());
    }

    /** `get_processed_data`: a fresh copy of the cached team table. */
    method GetProcessedData() returns (c: Frame<TeamRow>)
      requires Valid() && initialized
      ensures fresh(c)
      ensures c.columns == processedData.columns && c.rows == processedData.rows
    {
      c := processedData.Copy();
    }

    /** `get_goal_distribution_df`: a fresh copy of the cached goal table. */
    method GetGoalDistributionDf() returns (c: Frame<GoalRow>)
      requires Valid() && initialized
      ensures fresh(c)
      ensures c.columns == goalDistributionDf.columns && c.rows == goalDistributionDf.rows
    {
      c := goalDistributionDf.Copy();
    }

    /** `get_normalized_radar_data`: the radar normalisation of `df`, as a
        fresh frame; `df` itself is not modified. */
    method GetNormalizedRadarData(df: Frame<TeamRow>) returns (r: Result<Frame<TeamRow>, NormError>)
      ensures var expected := RadarTable(TeamTable(df.columns, df.rows));
        && r.Ok? == expected.Ok?
        && (r.Err? ==> r.error == expected.error)
        && (r.Ok? ==> fresh(r.value) && TeamTable(r.value.columns, r.value.rows) == expected.value)
    {
      var normalized := NormalizeMetrics(df, StatsForRadar, LessIsBetter);
      if normalized.Err? {
        return Err(normalized.error);
      }
      var c := normalized.value.Copy();
      return Ok(c);
    }
  }

  /** The class object `Preprocessor` with its attribute `instance`. */
  class PreprocessorClass {
    var instance: Preprocessor?

    ghost predicate Valid()
      reads this, instance
    {
      instance != null ==> instance.Valid()
    }

    constructor ()
      ensures Valid() && instance == null
    {
      instance := null;
    }

    /** `__new__`: the existing instance whatever the path; otherwise a new
        one, which requires a path. */
    method New(path: Option<string>) returns (r: Result<Preprocessor, InitError>)
      requires Valid()
      modifies this
      ensures Valid()
      ensures old(instance) != null ==> r.Ok? && r.value == old(instance) && instance == old(instance)
      ensures old(instance) == null && path.None? ==> r == Err(FilePathRequired) && instance == null
      ensures old(instance) == null && path.Some? ==>
        r.Ok? && fresh(r.value) && instance == r.value && !r.value.initialized
    {
      if instance == null {
        if path.None? {
          return Err(FilePathRequired);
        }
        instance := new Preprocessor();
      }
      return Ok(instance);
    }

    /** `Preprocessor(file_path)`: `__new__` and then `__init__` on what it
        returned. Once an instance is initialised, every call returns that
        same instance and neither reloads nor changes it, whatever the path. */
    method Call(path: Option<string>, files: map<string, Workbook>) returns (r: Result<Preprocessor, InitError>)
      requires Valid()
      modifies this, instance
      ensures Valid()
      ensures old(instance) != null && old(instance.initialized) ==>
        r.Ok? && r.value == old(instance) && instance == old(instance) && unchanged(instance)
      ensures old(instance) == null && path.None? ==> r == Err(FilePathRequired) && instance == null
      ensures (old(instance) == null && path.Some?) || (old(instance) != null && !old(instance.initialized)) ==>
        && instance != null
        && (old(instance) != null ==> instance == old(instance))
        && (Load(path, files).Ok? <==> r.Ok?)
        && (r.Ok? ==>
              && r.value == instance && instance.initialized
              && instance.processedData != null && instance.goalDistributionDf != null
              && TeamTable(instance.processedData.columns, instance.processedData.rows) == Load(path, files).value.0
              && instance.goalDistributionDf.columns == GoalColumns
              && instance.goalDistributionDf.rows == Load(path, files).value.1)
        && (r.Err? ==> r.error == Load(path, files).error && !instance.initialized)
    {
      r := New(path);
      if r.Err? {
        return;
      }
      var obj := r.value;
      var init := obj.Initialize(path, files);
      if init.Err? {
        r := Err(init.error);
      }
    }
  }

  /** A caller that changes the table it was handed changes only its copy:
      the cached table of the instance stays as it was. */
  method ChangeCopy(p: Preprocessor, name: string, col: seq<Option<real>>) returns (c: Frame<TeamRow>)
    requires p.Valid() && p.initialized
    requires |col| == |p.processedData.rows|
    ensures fresh(c)
    ensures TeamTable(c.columns, c.rows) ==
      WithColumn(TeamTable(p.processedData.columns, p.processedData.rows), name, col)
    ensures unchanged(p, p.processedData)
  {
    c := p.GetProcessedData();
    SetColumn(c, name, col);
  }
}
