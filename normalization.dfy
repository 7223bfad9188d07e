/** Min-max normalisation of the radar-chart metrics (`_normalize_metrics`,
    `_get_normalized_radar_data`). For every metric a `<metric>_norm` column
    is added to a copy of the team table; the value is the metric's position
    between the column minimum (0) and maximum (1), turned around (1 - x) for
    the metrics where less is better. Missing cells stay missing, and a column
    whose non-missing values are all equal (0 / 0 in the source) gives missing
    cells throughout. */
module Normalization {
  import opened Seqs
  import opened Frames

  const StatsForRadar: seq<string> := [
    "Goals", "Ball Possession", "Attempts blocked", "Goals conceded",
    "Attempts on target conceded", "Attempts on target"]

  const LessIsBetter: seq<string> := ["Goals conceded", "Attempts on target conceded"]

  /** `df[metric]` on a table without that column. */
  datatype NormError = MissingColumn(metric: string)

  /** The name of the column that holds the normalised metric `m`. */
  function NormName(m: string): string
  {
    m + "_norm"
  }

  /** Distinct metrics get distinct `_norm` columns. */
  lemma NormNameInjective(m1: string, m2: string)
    requires NormName(m1) == NormName(m2)
    ensures m1 == m2
  {
    assert |m1| == |m2|;
    assert m1 == NormName(m1)[..|m1|];
    assert m2 == NormName(m2)[..|m2|];
  }

  /** Column `m` of the rows; None is a missing cell. */
  function Column(rows: seq<TeamRow>, m: string): (col: seq<Option<real>>)
    ensures |col| == |rows|
  {
    seq(|rows|, i requires 0 <= i < |rows| => if m in rows[i].cells then Some(rows[i].cells[m]) else None)
  }

  /** `Series.min()`: the least non-missing value, None when there is none. */
  function MinOf(col: seq<Option<real>>): Option<real>
  {
    if col == [] then None
    else
      var m := MinOf(Init(col));
      match Last(col)
      case None => m
      case Some(v) => if m.Some? && m.value <= v then m else Some(v)
  }

  /** The minimum is missing exactly when every cell is, is at most every
      value, and is the value of some row. */
  lemma {:induction false} MinOfSpec(col: seq<Option<real>>)
    ensures MinOf(col).None? <==> forall i :: 0 <= i < |col| ==> col[i].None?
    ensures MinOf(col).Some? ==> forall i :: 0 <= i < |col| && col[i].Some? ==> MinOf(col).value <= col[i].value
    ensures MinOf(col).Some? ==> exists i :: 0 <= i < |col| && col[i] == MinOf(col)
    decreases |col|
  {
    if col != [] {
      MinOfSpec(Init(col));
      assert forall i :: 0 <= i < |col| - 1 ==> col[i] == Init(col)[i];
      assert Last(col) == col[|col| - 1];
    }
  }

  /** `Series.max()`: the greatest non-missing value, None when there is none. */
  function MaxOf(col: seq<Option<real>>): Option<real>
  {
    if col == [] then None
    else
      var m := MaxOf(Init(col));
      match Last(col)
      case None => m
      case Some(v) => if m.Some? && v <= m.value then m else Some(v)
  }

  /** The maximum is missing exactly when every cell is, is at least every
      value, and is the value of some row. */
  lemma {:induction false} MaxOfSpec(col: seq<Option<real>>)
    ensures MaxOf(col).None? <==> forall i :: 0 <= i < |col| ==> col[i].None?
    ensures MaxOf(col).Some? ==> forall i :: 0 <= i < |col| && col[i].Some? ==> col[i].value <= MaxOf(col).value
    ensures MaxOf(col).Some? ==> exists i :: 0 <= i < |col| && col[i] == MaxOf(col)
    decreases |col|
  {
    if col != [] {
      MaxOfSpec(Init(col));
      assert forall i :: 0 <= i < |col| - 1 ==> col[i] == Init(col)[i];
      assert Last(col) == col[|col| - 1];
    }
  }

  /** Two non-missing values of the column differ. */
  ghost predicate HasRange(col: seq<Option<real>>)
  {
    exists i, j :: 0 <= i < |col| && 0 <= j < |col| && col[i].Some? && col[j].Some? && col[i].value != col[j].value
  }

  function Scale(v: real, lo: real, hi: real, inverted: bool): real
    requires lo < hi
  {
    if inverted then 1.0 - (v - lo) / (hi - lo) else (v - lo) / (hi - lo)
  }

  /** The `<metric>_norm` column computed from column `col`. */
  function NormColumn(col: seq<Option<real>>, inverted: bool): seq<Option<real>>
  {
    var lo, hi := MinOf(col), MaxOf(col);
    seq(|col|, i requires 0 <= i < |col| =>
      if col[i].Some? && lo.Some? && hi.Some? && lo.value < hi.value
      then Some(Scale(col[i].value, lo.value, hi.value, inverted))
      else None)
  }

  lemma RangeIsMinBelowMax(col: seq<Option<real>>)
    ensures HasRange(col) <==> MinOf(col).Some? && MaxOf(col).Some? && MinOf(col).value < MaxOf(col).value
  {
    MinOfSpec(col);
    MaxOfSpec(col);
    var lo, hi := MinOf(col), MaxOf(col);
    if lo.Some? && hi.Some? && lo.value < hi.value {
      var i :| 0 <= i < |col| && col[i] == lo;
      var j :| 0 <= j < |col| && col[j] == hi;
      assert col[i].value != col[j].value;
    }
  }

  /** Row `i` holds the least value of the column. */
  ghost predicate IsMinAt(col: seq<Option<real>>, i: int)
  {
    0 <= i < |col| && col[i].Some? &&
    forall j :: 0 <= j < |col| && col[j].Some? ==> col[i].value <= col[j].value
  }

  /** Row `i` holds the greatest value of the column. */
  ghost predicate IsMaxAt(col: seq<Option<real>>, i: int)
  {
    0 <= i < |col| && col[i].Some? &&
    forall j :: 0 <= j < |col| && col[j].Some? ==> col[j].value <= col[i].value
  }

  /** A normalised cell exists exactly where the metric has a value and the
      column is not constant. */
  lemma NormColumnPresence(col: seq<Option<real>>, inverted: bool)
    ensures |NormColumn(col, inverted)| == |col|
    ensures forall i :: 0 <= i < |col| ==>
      (NormColumn(col, inverted)[i].Some? <==> col[i].Some? && HasRange(col))
  {
    RangeIsMinBelowMax(col);
  }

  /** Every normalised value lies in [0, 1]. */
  lemma NormColumnBounds(col: seq<Option<real>>, inverted: bool, i: int)
    requires 0 <= i < |col| && NormColumn(col, inverted)[i].Some?
    ensures 0.0 <= NormColumn(col, inverted)[i].value <= 1.0
  {
    MinOfSpec(col);
    MaxOfSpec(col);
    var lo, hi := MinOf(col).value, MaxOf(col).value;
    DivBounds(col[i].value - lo, hi - lo);
  }

  /** The column minimum maps to 0, or to 1 when inverted. */
  lemma NormColumnAtMin(col: seq<Option<real>>, inverted: bool, i: int)
    requires IsMinAt(col, i) && NormColumn(col, inverted)[i].Some?
    ensures NormColumn(col, inverted)[i].value == if inverted then 1.0 else 0.0
  {
    MinOfSpec(col);
    MaxOfSpec(col);
    var lo, hi := MinOf(col).value, MaxOf(col).value;
    var k :| 0 <= k < |col| && col[k] == MinOf(col);
    assert col[i].value == lo;
    ZeroOver(hi - lo);
  }

  /** The column maximum maps to 1, or to 0 when inverted. */
  lemma NormColumnAtMax(col: seq<Option<real>>, inverted: bool, i: int)
    requires IsMaxAt(col, i) && NormColumn(col, inverted)[i].Some?
    ensures NormColumn(col, inverted)[i].value == if inverted then 0.0 else 1.0
  {
    MinOfSpec(col);
    MaxOfSpec(col);
    var lo, hi := MinOf(col).value, MaxOf(col).value;
    var l :| 0 <= l < |col| && col[l] == MaxOf(col);
    assert col[i].value == hi;
    OverSelf(hi - lo);
  }

  lemma ZeroOver(d: real)
    requires d > 0.0
    ensures 0.0 / d == 0.0
  {
  }

  lemma OverSelf(d: real)
    requires d > 0.0
    ensures d / d == 1.0
  {
  }

  /** Normalisation keeps the order of the values, and reverses it for an
      inverted metric. */
  lemma NormColumnMonotone(col: seq<Option<real>>, inverted: bool, i: int, j: int)
    requires 0 <= i < |col| && 0 <= j < |col|
    requires NormColumn(col, inverted)[i].Some? && NormColumn(col, inverted)[j].Some?
    requires col[i].value <= col[j].value
    ensures inverted ==> NormColumn(col, inverted)[j].value <= NormColumn(col, inverted)[i].value
    ensures !inverted ==> NormColumn(col, inverted)[i].value <= NormColumn(col, inverted)[j].value
  {
    MinOfSpec(col);
    MaxOfSpec(col);
    var lo, hi := MinOf(col).value, MaxOf(col).value;
    DivMonotone(col[i].value - lo, col[j].value - lo, hi - lo);
  }

  lemma DivBounds(x: real, d: real)
    requires 0.0 <= x <= d && d > 0.0
    ensures 0.0 <= x / d <= 1.0
  {
    assert x / d * d == x;
  }

  lemma DivMonotone(x: real, y: real, d: real)
    requires x <= y && d > 0.0
    ensures x / d <= y / d
  {
    assert x / d * d == x && y / d * d == y;
  }

  /** The first metric, in order, that is not a column of the table. */
  function FirstMissing(columns: seq<string>, metrics: seq<string>): Option<string>
  {
    if metrics == [] then None
    else
      match FirstMissing(columns, Init(metrics))
      case Some(m) => Some(m)
      case None => if Last(metrics) in columns then None else Some(Last(metrics))
  }

  /** The `_norm` column that metric `m` adds to a table with the rows of `t`. */
  function NormFor(t: TeamTable, m: string, lessIsBetter: seq<string>): (col: seq<Option<real>>)
    ensures |col| == |t.rows|
  {
    NormColumn(Column(t.rows, m), m in lessIsBetter)
  }

  /** `t` with the `_norm` column of every metric assigned in order; each
      column is computed from the input table `t`. */
  function WithNormColumns(t: TeamTable, metrics: seq<string>, lessIsBetter: seq<string>): (r: TeamTable)
    ensures |r.rows| == |t.rows|
  {
    if metrics == [] then t
    else
      var m := Last(metrics);
      WithColumn(WithNormColumns(t, Init(metrics), lessIsBetter), NormName(m), NormFor(t, m, lessIsBetter))
  }

  /** The table after normalising `metrics` in order: the first metric that
      is not a column of `t` fails the whole call (`df[metric]` raises). */
  function NormalizedTable(t: TeamTable, metrics: seq<string>, lessIsBetter: seq<string>): Result<TeamTable, NormError>
  {
    match FirstMissing(t.columns, metrics)
    case Some(m) => Err(MissingColumn(m))
    case None => Ok(WithNormColumns(t, metrics, lessIsBetter))
  }

  /** `_get_normalized_radar_data`. */
  function RadarTable(t: TeamTable): Result<TeamTable, NormError>
  {
    NormalizedTable(t, StatsForRadar, LessIsBetter)
  }

  /** `_normalize_metrics`: copies the table and adds one column per metric to
      the copy; the input frame is not modified. */
  method NormalizeMetrics(df: Frame<TeamRow>, metrics: seq<string>, lessIsBetter: seq<string>)
    returns (r: Result<Frame<TeamRow>, NormError>)
    ensures var expected := NormalizedTable(TeamTable(df.columns, df.rows), metrics, lessIsBetter);
      && r.Ok? == expected.Ok?
      && (r.Err? ==> r.error == expected.error)
      && (r.Ok? ==> fresh(r.value) && TeamTable(r.value.columns, r.value.rows) == expected.value)
  {
    var t := TeamTable(df.columns, df.rows);
    var out := df.Copy();
    for k := 0 to |metrics|
      invariant fresh(out)
      invariant FirstMissing(t.columns, metrics[..k]).None?
      invariant TeamTable(out.columns, out.rows) == WithNormColumns(t, metrics[..k], lessIsBetter)
    {
      var m := metrics[k];
      assert Init(metrics[..k + 1]) == metrics[..k] && Last(metrics[..k + 1]) == m;
      if m !in df.columns {
        assert metrics[..k + 1] + metrics[k + 1..] == metrics;
        FirstMissingPersists(t.columns, metrics[..k + 1], metrics[k + 1..]);
        return Err(MissingColumn(m));
      }
      assert WithNormColumns(t, metrics[..k + 1], lessIsBetter) ==
        WithColumn(WithNormColumns(t, metrics[..k], lessIsBetter), NormName(m), NormFor(t, m, lessIsBetter));
      SetColumn(out, NormName(m), NormFor(t, m, lessIsBetter));
    }
    assert metrics[..|metrics|] == metrics;
    return Ok(out);
  }

  /** Once a prefix of the metrics has a missing one, so has every longer
      list, and it is the same one. */
  lemma {:induction false} FirstMissingPersists(columns: seq<string>, ms: seq<string>, rest: seq<string>)
    requires FirstMissing(columns, ms).Some?
    ensures FirstMissing(columns, ms + rest) == FirstMissing(columns, ms)
    decreases |rest|
  {
    if rest == [] {
      assert ms + rest == ms;
    } else {
      FirstMissingPersists(columns, ms, Init(rest));
      assert Init(ms + rest) == ms + Init(rest);
    }
  }

  /** Column `c` is the `_norm` column of one of the metrics. */
  ghost predicate IsNormColumn(c: string, metrics: seq<string>)
  {
    exists k :: 0 <= k < |metrics| && c == NormName(metrics[k])
  }

  /** The first missing metric is absent exactly when every metric is a
      column. */
  lemma {:induction false} FirstMissingNone(columns: seq<string>, metrics: seq<string>)
    ensures FirstMissing(columns, metrics).None? <==> forall k :: 0 <= k < |metrics| ==> metrics[k] in columns
    decreases |metrics|
  {
    if metrics != [] {
      var init, m := Init(metrics), Last(metrics);
      FirstMissingNone(columns, init);
      if FirstMissing(columns, metrics).None? {
        forall k | 0 <= k < |metrics| ensures metrics[k] in columns {
          if k < |init| {
            assert metrics[k] == init[k];
          } else {
            assert metrics[k] == m;
          }
        }
      } else if FirstMissing(columns, init).None? {
        assert metrics[|metrics| - 1] == m && m !in columns;
      } else {
        var l :| 0 <= l < |init| && init[l] !in columns;
        assert metrics[l] == init[l];
      }
    }
  }

  /** The call succeeds exactly when every metric is a column of the table. */
  lemma NormalizedSucceeds(t: TeamTable, metrics: seq<string>, lessIsBetter: seq<string>)
    ensures NormalizedTable(t, metrics, lessIsBetter).Ok? <==>
      forall k :: 0 <= k < |metrics| ==> metrics[k] in t.columns
  {
    FirstMissingNone(t.columns, metrics);
  }

  /** A missing metric found is one that is not a column, and every metric
      before it is one. */
  lemma {:induction false} FirstMissingSome(columns: seq<string>, metrics: seq<string>)
    requires FirstMissing(columns, metrics).Some?
    ensures exists k ::
      && 0 <= k < |metrics| && metrics[k] !in columns
      && FirstMissing(columns, metrics) == Some(metrics[k])
      && forall l :: 0 <= l < k ==> metrics[l] in columns
    decreases |metrics|
  {
    var init := Init(metrics);
    if FirstMissing(columns, init).Some? {
      FirstMissingSome(columns, init);
      var k :| && 0 <= k < |init| && init[k] !in columns
        && FirstMissing(columns, init) == Some(init[k])
        && forall l :: 0 <= l < k ==> init[l] in columns;
      assert metrics[k] == init[k];
      assert forall l :: 0 <= l < k ==> metrics[l] == init[l];
    } else {
      FirstMissingNone(columns, init);
      var k := |metrics| - 1;
      assert metrics[k] == Last(metrics);
      assert forall l :: 0 <= l < k ==> metrics[l] == init[l];
    }
  }

  /** On failure the error names the first metric that is not a column. */
  lemma NormalizedError(t: TeamTable, metrics: seq<string>, lessIsBetter: seq<string>)
    requires NormalizedTable(t, metrics, lessIsBetter).Err?
    ensures exists k ::
      && 0 <= k < |metrics| && metrics[k] !in t.columns
      && NormalizedTable(t, metrics, lessIsBetter).error == MissingColumn(metrics[k])
      && forall l :: 0 <= l < k ==> metrics[l] in t.columns
  {
    FirstMissingSome(t.columns, metrics);
  }

  /** Normalisation keeps every row, in order, with its TeamID and TeamName. */
  lemma {:induction false} NormalizedRows(t: TeamTable, metrics: seq<string>, lessIsBetter: seq<string>, i: int)
    requires 0 <= i < |t.rows|
    ensures RowKey(WithNormColumns(t, metrics, lessIsBetter).rows[i]) == RowKey(t.rows[i])
    decreases |metrics|
  {
    if metrics != [] {
      var init, m := Init(metrics), Last(metrics);
      NormalizedRows(t, init, lessIsBetter, i);
      WithColumnCell(WithNormColumns(t, init, lessIsBetter), NormName(m), NormFor(t, m, lessIsBetter), i, m);
    }
  }

  /** Normalisation keeps the input columns in front and never introduces a
      duplicate column. */
  lemma {:induction false} NormalizedColumns(t: TeamTable, metrics: seq<string>, lessIsBetter: seq<string>)
    ensures var cols := WithNormColumns(t, metrics, lessIsBetter).columns;
      && |t.columns| <= |cols| && cols[..|t.columns|] == t.columns
      && (NoDuplicates(t.columns) ==> NoDuplicates(cols))
    decreases |metrics|
  {
    if metrics != [] {
      var init, m := Init(metrics), Last(metrics);
      NormalizedColumns(t, init, lessIsBetter);
      var u := WithNormColumns(t, init, lessIsBetter);
      if NormName(m) !in u.columns {
        assert (u.columns + [NormName(m)])[..|t.columns|] == u.columns[..|t.columns|];
        if NoDuplicates(u.columns) {
          AppendFresh(u.columns, NormName(m));
        }
      }
    }
  }

  /** The columns after normalisation are the input columns and the `_norm`
      columns of the metrics, and no others. */
  lemma {:induction false} NormalizedColumnMember(t: TeamTable, metrics: seq<string>, lessIsBetter: seq<string>, c: string)
    ensures c in WithNormColumns(t, metrics, lessIsBetter).columns <==> c in t.columns || IsNormColumn(c, metrics)
    decreases |metrics|
  {
    if metrics != [] {
      var init, m := Init(metrics), Last(metrics);
      NormalizedColumnMember(t, init, lessIsBetter, c);
      var u := WithNormColumns(t, init, lessIsBetter);
      assert c in WithNormColumns(t, metrics, lessIsBetter).columns <==> c in u.columns || c == NormName(m);
      if IsNormColumn(c, init) {
        var k :| 0 <= k < |init| && c == NormName(init[k]);
        assert metrics[k] == init[k];
        assert IsNormColumn(c, metrics);
      }
      if c == NormName(m) {
        assert metrics[|metrics| - 1] == m;
        assert IsNormColumn(c, metrics);
      }
      if IsNormColumn(c, metrics) && c != NormName(m) {
        var k :| 0 <= k < |metrics| && c == NormName(metrics[k]);
        assert k != |metrics| - 1;
        assert metrics[k] == init[k];
        assert IsNormColumn(c, init);
      }
    }
  }

  /** Every cell outside the `_norm` columns of the metrics is left as it was. */
  lemma {:induction false} NormalizedKeepsCells(t: TeamTable, metrics: seq<string>, lessIsBetter: seq<string>, i: int, c: string)
    requires 0 <= i < |t.rows| && !IsNormColumn(c, metrics)
    ensures Cell(WithNormColumns(t, metrics, lessIsBetter).rows[i], c) == Cell(t.rows[i], c)
    decreases |metrics|
  {
    if metrics != [] {
      var init, m := Init(metrics), Last(metrics);
      forall k | 0 <= k < |init| ensures c != NormName(init[k]) {
        assert init[k] == metrics[k];
      }
      NormalizedKeepsCells(t, init, lessIsBetter, i, c);
      assert c != NormName(metrics[|metrics| - 1]);
      WithColumnCell(WithNormColumns(t, init, lessIsBetter), NormName(m), NormFor(t, m, lessIsBetter), i, c);
    }
  }

  /** The `_norm` column of metric `metrics[k]` holds that metric's
      normalised input column, row by row. */
  lemma {:induction false} NormalizedCell(t: TeamTable, metrics: seq<string>, lessIsBetter: seq<string>, k: int, i: int)
    requires 0 <= k < |metrics| && 0 <= i < |t.rows|
    ensures Cell(WithNormColumns(t, metrics, lessIsBetter).rows[i], NormName(metrics[k])) ==
      NormColumn(Column(t.rows, metrics[k]), metrics[k] in lessIsBetter)[i]
    decreases |metrics|
  {
    var init, m := Init(metrics), Last(metrics);
    var u, col := WithNormColumns(t, init, lessIsBetter), NormFor(t, m, lessIsBetter);
    assert WithNormColumns(t, metrics, lessIsBetter) == WithColumn(u, NormName(m), col);
    WithColumnCell(u, NormName(m), col, i, NormName(metrics[k]));
    if NormName(metrics[k]) == NormName(m) {
      NormNameInjective(metrics[k], m);
    } else {
      assert k < |init| && metrics[k] == init[k];
      NormalizedCell(t, init, lessIsBetter, k, i);
    }
  }

  /** The radar table inverts exactly "Goals conceded" and "Attempts on
      target conceded" (positions 3 and 4 of the radar list). */
  lemma RadarCell(t: TeamTable, k: int, i: int)
    requires RadarTable(t).Ok?
    requires 0 <= k < |StatsForRadar| && 0 <= i < |t.rows|
    ensures Cell(RadarTable(t).value.rows[i], NormName(StatsForRadar[k])) ==
      NormColumn(Column(t.rows, StatsForRadar[k]), k == 3 || k == 4)[i]
  {
    NormalizedCell(t, StatsForRadar, LessIsBetter, k, i);
    RadarInversions(k);
  }

  lemma RadarInversions(k: int)
    requires 0 <= k < |StatsForRadar|
    ensures StatsForRadar[k] in LessIsBetter <==> k == 3 || k == 4
  {
  }

  /** Worked values: 1, 3, 5 normalise to 0, 0.5, 1. */
  lemma NormColumnExample()
    ensures NormColumn([Some(1.0), Some(3.0), Some(5.0)], false) == [Some(0.0), Some(0.5), Some(1.0)]
  {
    assert MinOf([Some(1.0), Some(3.0), Some(5.0)]) == Some(1.0);
    assert MaxOf([Some(1.0), Some(3.0), Some(5.0)]) == Some(5.0);
  }

  /** The same values of an inverted metric normalise to 1, 0.5, 0. */
  lemma NormColumnInvertedExample()
    ensures NormColumn([Some(1.0), Some(3.0), Some(5.0)], true) == [Some(1.0), Some(0.5), Some(0.0)]
  {
    assert MinOf([Some(1.0), Some(3.0), Some(5.0)]) == Some(1.0);
    assert MaxOf([Some(1.0), Some(3.0), Some(5.0)]) == Some(5.0);
  }

  /** A missing cell stays missing and does not take part in min and max. */
  lemma NormColumnMissingExample()
    ensures NormColumn([Some(4.0), None, Some(2.0)], false) == [Some(1.0), None, Some(0.0)]
  {
    assert MinOf([Some(4.0), None, Some(2.0)]) == Some(2.0);
    assert MaxOf([Some(4.0), None, Some(2.0)]) == Some(4.0);
  }

  /** A constant column (0 / 0) has no normalised cell. */
  lemma NormColumnConstantExample()
    ensures NormColumn([Some(2.0), Some(2.0)], false) == [None, None]
  {
    assert MinOf([Some(2.0), Some(2.0)]) == MaxOf([Some(2.0), Some(2.0)]);
  }
}
