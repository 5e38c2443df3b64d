/**
 * The loop of `execute` that turns report rows into output lines: for each
 * row a dict of its dimensions keyed by lower-cased header name, and for
 * each metric group of the row a copy of it with the group's metrics, the
 * view id and the start date added, written as one JSON line.
 *
 * The functions here say what the loop produces, and the lemmas prove its
 * properties; the loop itself is in `ReportWriter`.
 */
module Flattening {
  import opened Wrappers
  import opened PyText
  import opened PyDict
  import opened AnalyticsReport
  import opened ColumnHeaders
  import Json

  const ViewIdKey: string := "viewid"
  const TimestampKey: string := "timestamp"

  /** The dict key of a column: its header name lower-cased. */
  function Key(h: Header): string
  {
    Lower(h.name)
  }

  /**
   * `d[headers[j].name.lower()] = values[j]` for j = 0, 1, ... in order: the
   * keys already present stay first, in their order, and at most one key per
   * value follows.
   */
  function PutColumns(d: Dict, headers: seq<Header>, values: seq<string>): (r: Dict)
    requires |values| <= |headers|
    ensures d.order <= r.order && |r.order| <= |d.order| + |values|
    decreases |values|
  {
    if values == [] then d
    else
      var n := |values| - 1;
      Put(PutColumns(d, headers, values[..n]), Key(headers[n]), values[n])
  }

  /** The last position below `n` whose header has the key `k`, or -1 if there is none. */
  function LastMatch(headers: seq<Header>, n: int, k: string): (j: int)
    requires 0 <= n <= |headers|
    ensures -1 <= j < n
    ensures j >= 0 ==> Key(headers[j]) == k
    ensures forall i :: j < i < n ==> Key(headers[i]) != k
    decreases n
  {
    if n == 0 then -1
    else if Key(headers[n - 1]) == k then n - 1
    else LastMatch(headers, n - 1, k)
  }

  /**
   * `root_data_obj` of a row: its dimension values under the dimension keys,
   * with at most one key per value.
   */
  function DimensionFields(dimensionHeaders: seq<Header>, dimensions: seq<string>): (r: Dict)
    requires |dimensions| <= |dimensionHeaders|
    ensures |r.order| <= |dimensions|
  {
    PutColumns(Empty, dimensionHeaders, dimensions)
  }

  /**
   * `data` of one metric group: the row's fields, the group's metrics, then
   * `viewid` and `timestamp`. The row's keys come first, at most one key per
   * metric and the two fixed keys follow, and those two hold the view id and
   * the raw start date.
   */
  function Record(root: Dict, metricHeaders: seq<Header>, group: seq<string>, viewId: string, since: string): (r: Dict)
    requires |group| <= |metricHeaders|
    ensures root.order <= r.order && |r.order| <= |root.order| + |group| + 2
    ensures Get(r, TimestampKey) == Some(since) && Get(r, ViewIdKey) == Some(viewId)
  {
    assert ViewIdKey != TimestampKey by { assert |ViewIdKey| != |TimestampKey|; }
    Put(Put(PutColumns(root, metricHeaders, group), ViewIdKey, viewId), TimestampKey, since)
  }

  /** A line of the output file: the record as JSON, then a line break. */
  function Line(record: Dict): (l: string)
    ensures |l| >= 3 && l[|l| - 1] == '\n'
  {
    Json.Serialize(record) + "\n"
  }

  /**
   * `'' if row_counter == len(rows) else '\n'`: `enumerate` yields counters
   * below `len(rows)`, so the guard never holds and every line, the last
   * one included, ends in a line break.
   */
  function LineTerminator(rowCounter: int, rowCount: int): (t: string)
    requires 0 <= rowCounter < rowCount
    ensures t == "\n"
  {
    if rowCounter == rowCount then "" else "\n"
  }

  /** One metric group the loop writes a line for, with the dimension values of its row. */
  datatype Emission = Emission(dimensions: seq<string>, values: seq<string>)

  /**
   * What the loop has written so far, and whether it got to the end: it
   * stops with an IndexError at the first row with more dimension values
   * than dimension headers, or at the first metric group with more values
   * than metric headers, after writing the lines before it.
   */
  datatype Flattened = Flattened(emitted: seq<Emission>, complete: bool)

  /** Every emission has no more values than there are headers. */
  predicate AllFit(es: seq<Emission>, dimensionCount: int, metricCount: int)
  {
    forall i :: 0 <= i < |es| ==> |es[i].dimensions| <= dimensionCount && |es[i].values| <= metricCount
  }

  /** The groups of one row whose dimension values fit: one emission per group, in order. */
  function GroupEmissions(dimensions: seq<string>, groups: seq<seq<string>>, metricCount: int): (f: Flattened)
    ensures |f.emitted| <= |groups|
    ensures forall i :: 0 <= i < |f.emitted| ==>
              f.emitted[i].dimensions == dimensions && |f.emitted[i].values| <= metricCount
    decreases |groups|
  {
    if groups == [] then Flattened([], true)
    else
      var pre := GroupEmissions(dimensions, groups[..|groups| - 1], metricCount);
      var group := groups[|groups| - 1];
      if !pre.complete then pre
      else if |group| > metricCount then Flattened(pre.emitted, false)
      else Flattened(pre.emitted + [Emission(dimensions, group)], true)
  }

  /**
   * The emissions of one row: none if its dimension values do not fit, else
   * those of its groups, each fitting and carrying the row's dimension values.
   */
  function RowEmissions(row: ReportRow, dimensionCount: int, metricCount: int): (f: Flattened)
    ensures AllFit(f.emitted, dimensionCount, metricCount) && |f.emitted| <= |row.metrics|
    ensures forall i :: 0 <= i < |f.emitted| ==> f.emitted[i].dimensions == row.dimensions
  {
    if |row.dimensions| > dimensionCount then Flattened([], false)
    else GroupEmissions(row.dimensions, row.metrics, metricCount)
  }

  /** The emissions of all rows, row by row: each fits, and there are no more than metric groups. */
  function ReportEmissions(rows: seq<ReportRow>, dimensionCount: int, metricCount: int): (f: Flattened)
    ensures AllFit(f.emitted, dimensionCount, metricCount) && |f.emitted| <= GroupCount(rows)
    decreases |rows|
  {
    if rows == [] then Flattened([], true)
    else
      var pre := ReportEmissions(rows[..|rows| - 1], dimensionCount, metricCount);
      if !pre.complete then pre
      else
        var last := RowEmissions(rows[|rows| - 1], dimensionCount, metricCount);
        Flattened(pre.emitted + last.emitted, last.complete)
  }

  /** The line written for an emission: the record of its row's fields and its values. */
  function EmissionLine(dimensionHeaders: seq<Header>, metricHeaders: seq<Header>, e: Emission,
                        viewId: string, since: string): (l: string)
    requires |e.dimensions| <= |dimensionHeaders| && |e.values| <= |metricHeaders|
  {
    Line(Record(DimensionFields(dimensionHeaders, e.dimensions), metricHeaders, e.values, viewId, since))
  }

  /** The lines written for a sequence of emissions, in order. */
  function Lines(dimensionHeaders: seq<Header>, metricHeaders: seq<Header>, es: seq<Emission>,
                 viewId: string, since: string): (ls: seq<string>)
    requires AllFit(es, |dimensionHeaders|, |metricHeaders|)
    ensures |ls| == |es|
    decreases |es|
  {
    if es == [] then []
    else
      var n := |es| - 1;
      Lines(dimensionHeaders, metricHeaders, es[..n], viewId, since)
        + [EmissionLine(dimensionHeaders, metricHeaders, es[n], viewId, since)]
  }

  /** A row fits the headers: no more values than headers anywhere in it. */
  predicate RowFits(row: ReportRow, dimensionCount: int, metricCount: int)
  {
    && |row.dimensions| <= dimensionCount
    && forall j :: 0 <= j < |row.metrics| ==> |row.metrics[j]| <= metricCount
  }

  /** The number of metric groups in all rows. */
  function GroupCount(rows: seq<ReportRow>): nat
    decreases |rows|
  {
    if rows == [] then 0 else GroupCount(rows[..|rows| - 1]) + |rows[|rows| - 1].metrics|
  }

  // ---------------------------------------------------------------------
  // Fields of a record

  /** A column assignment stores, under each key, the value of the last column with that key. */
  lemma {:induction false} GetPutColumns(d: Dict, headers: seq<Header>, values: seq<string>, k: string)
    requires |values| <= |headers|
    ensures Get(PutColumns(d, headers, values), k)
            == (var j := LastMatch(headers, |values|, k); if j >= 0 then Some(values[j]) else Get(d, k))
    decreases |values|
  {
    if values != [] {
      var n := |values| - 1;
      GetPut(PutColumns(d, headers, values[..n]), Key(headers[n]), values[n], k);
      GetPutColumns(d, headers, values[..n], k);
    }
  }

  lemma {:induction false} PutColumnsIsDict(d: Dict, headers: seq<Header>, values: seq<string>)
    requires IsDict(d) && |values| <= |headers|
    ensures IsDict(PutColumns(d, headers, values))
    decreases |values|
  {
    if values != [] {
      var n := |values| - 1;
      PutColumnsIsDict(d, headers, values[..n]);
      PutIsDict(PutColumns(d, headers, values[..n]), Key(headers[n]), values[n]);
    }
  }

  /**
   * Field precedence in a record: `timestamp` is the raw start date and
   * `viewid` the view id, whatever the columns are called; any other key
   * holds the value of the last metric column with that key if there is
   * one, else that of the last dimension column with that key, and is
   * absent otherwise.
   */
  lemma RecordGet(root: Dict, dimensionHeaders: seq<Header>, dimensions: seq<string>, metricHeaders: seq<Header>,
                  group: seq<string>, viewId: string, since: string, k: string)
    requires |dimensions| <= |dimensionHeaders| && |group| <= |metricHeaders|
    requires root == DimensionFields(dimensionHeaders, dimensions)
    ensures var m := LastMatch(metricHeaders, |group|, k);
            var j := LastMatch(dimensionHeaders, |dimensions|, k);
            Get(Record(root, metricHeaders, group, viewId, since), k)
              == if k == TimestampKey then Some(since)
                 else if k == ViewIdKey then Some(viewId)
                 else if m >= 0 then Some(group[m])
                 else if j >= 0 then Some(dimensions[j])
                 else None
  {
    RecordGetFixed(root, metricHeaders, group, viewId, since, k);
    MetricFieldsGet(root, dimensionHeaders, dimensions, metricHeaders, group, k);
  }

  /** Below the two fixed keys, a metric value shadows a dimension value. */
  lemma MetricFieldsGet(root: Dict, dimensionHeaders: seq<Header>, dimensions: seq<string>,
                        metricHeaders: seq<Header>, group: seq<string>, k: string)
    requires |dimensions| <= |dimensionHeaders| && |group| <= |metricHeaders|
    requires root == DimensionFields(dimensionHeaders, dimensions)
    ensures var m := LastMatch(metricHeaders, |group|, k);
            var j := LastMatch(dimensionHeaders, |dimensions|, k);
            Get(PutColumns(root, metricHeaders, group), k)
              == if m >= 0 then Some(group[m]) else if j >= 0 then Some(dimensions[j]) else None
  {
    GetPutColumns(root, metricHeaders, group, k);
    DimensionFieldsGet(dimensionHeaders, dimensions, k);
  }

  /** `viewid` and `timestamp` are set last, so they override any column of the same name. */
  lemma RecordGetFixed(root: Dict, metricHeaders: seq<Header>, group: seq<string>,
                       viewId: string, since: string, k: string)
    requires |group| <= |metricHeaders|
    ensures Get(Record(root, metricHeaders, group, viewId, since), k)
            == if k == TimestampKey then Some(since)
               else if k == ViewIdKey then Some(viewId)
               else Get(PutColumns(root, metricHeaders, group), k)
  {
    var data := PutColumns(root, metricHeaders, group);
    assert ViewIdKey != TimestampKey by { assert |ViewIdKey| != |TimestampKey|; }
    GetPut(Put(data, ViewIdKey, viewId), TimestampKey, since, k);
    GetPut(data, ViewIdKey, viewId, k);
  }

  /** The dimension dict holds the value of the last dimension column of each key. */
  lemma DimensionFieldsGet(dimensionHeaders: seq<Header>, dimensions: seq<string>, k: string)
    requires |dimensions| <= |dimensionHeaders|
    ensures Get(DimensionFields(dimensionHeaders, dimensions), k)
            == (var j := LastMatch(dimensionHeaders, |dimensions|, k); if j >= 0 then Some(dimensions[j]) else None)
  {
    GetPutColumns(Empty, dimensionHeaders, dimensions, k);
  }

  /** A record built on a dict is a dict. */
  lemma RecordShape(root: Dict, metricHeaders: seq<Header>, group: seq<string>, viewId: string, since: string)
    requires IsDict(root) && |group| <= |metricHeaders|
    ensures IsDict(Record(root, metricHeaders, group, viewId, since))
  {
    var data := PutColumns(root, metricHeaders, group);
    PutColumnsIsDict(root, metricHeaders, group);
    PutIsDict(data, ViewIdKey, viewId);
    PutIsDict(Put(data, ViewIdKey, viewId), TimestampKey, since);
  }

  /** The dimension dict of a row is well formed. */
  lemma DimensionFieldsIsDict(dimensionHeaders: seq<Header>, dimensions: seq<string>)
    requires |dimensions| <= |dimensionHeaders|
    ensures IsDict(DimensionFields(dimensionHeaders, dimensions))
  {
    PutColumnsIsDict(Empty, dimensionHeaders, dimensions);
  }

  /**
   * Records of one row start from the same dimension fields, so they agree
   * with those fields on every key that neither group's metrics nor
   * `viewid` and `timestamp` set.
   */
  lemma SameRowShareDimensions(root: Dict, metricHeaders: seq<Header>, g1: seq<string>, g2: seq<string>,
                               viewId: string, since: string, k: string)
    requires |g1| <= |metricHeaders| && |g2| <= |metricHeaders|
    requires k != ViewIdKey && k != TimestampKey
    requires LastMatch(metricHeaders, |g1|, k) < 0 && LastMatch(metricHeaders, |g2|, k) < 0
    ensures Get(Record(root, metricHeaders, g1, viewId, since), k)
            == Get(Record(root, metricHeaders, g2, viewId, since), k)
            == Get(root, k)
  {
    RecordGetFixed(root, metricHeaders, g1, viewId, since, k);
    RecordGetFixed(root, metricHeaders, g2, viewId, since, k);
    GetPutColumns(root, metricHeaders, g1, k);
    GetPutColumns(root, metricHeaders, g2, k);
  }

  // ---------------------------------------------------------------------
  // Fan-out and order

  /** A row's groups give one emission each, in order, unless a group does not fit. */
  lemma {:induction false} GroupEmissionsSpec(dimensions: seq<string>, groups: seq<seq<string>>, metricCount: int)
    ensures var f := GroupEmissions(dimensions, groups, metricCount);
            && (f.complete <==> forall j :: 0 <= j < |groups| ==> |groups[j]| <= metricCount)
            && (f.complete ==> |f.emitted| == |groups|)
            && (f.complete ==> forall j :: 0 <= j < |groups| ==> f.emitted[j] == Emission(dimensions, groups[j]))
    decreases |groups|
  {
    if groups != [] {
      var n := |groups| - 1;
      GroupEmissionsSpec(dimensions, groups[..n], metricCount);
      if !GroupEmissions(dimensions, groups[..n], metricCount).complete {
        var j :| 0 <= j < n && |groups[..n][j]| > metricCount;
        assert |groups[j]| > metricCount;
      }
    }
  }

  /** The loop gets to the end exactly when every row fits the headers. */
  lemma {:induction false} ReportEmissionsComplete(rows: seq<ReportRow>, dimensionCount: int, metricCount: int)
    ensures ReportEmissions(rows, dimensionCount, metricCount).complete
            <==> forall i :: 0 <= i < |rows| ==> RowFits(rows[i], dimensionCount, metricCount)
    decreases |rows|
  {
    if rows != [] {
      var n := |rows| - 1;
      ReportEmissionsComplete(rows[..n], dimensionCount, metricCount);
      GroupEmissionsSpec(rows[n].dimensions, rows[n].metrics, metricCount);
      if !ReportEmissions(rows[..n], dimensionCount, metricCount).complete {
        var i :| 0 <= i < n && !RowFits(rows[..n][i], dimensionCount, metricCount);
        assert rows[..n][i] == rows[i];
      }
    }
  }

  /** When every row fits, there is one emission per metric group. */
  lemma {:induction false} ReportEmissionsCount(rows: seq<ReportRow>, dimensionCount: int, metricCount: int)
    requires ReportEmissions(rows, dimensionCount, metricCount).complete
    ensures |ReportEmissions(rows, dimensionCount, metricCount).emitted| == GroupCount(rows)
    decreases |rows|
  {
    if rows != [] {
      var n := |rows| - 1;
      ReportEmissionsCount(rows[..n], dimensionCount, metricCount);
      GroupEmissionsSpec(rows[n].dimensions, rows[n].metrics, metricCount);
    }
  }

  /**
   * Order: when every row fits, the emission of group j of row i comes after
   * all groups of the earlier rows and the earlier groups of row i.
   */
  lemma {:induction false} ReportEmissionAt(rows: seq<ReportRow>, dimensionCount: int, metricCount: int, i: int, j: int)
    requires ReportEmissions(rows, dimensionCount, metricCount).complete
    requires 0 <= i < |rows| && 0 <= j < |rows[i].metrics|
    ensures var f := ReportEmissions(rows, dimensionCount, metricCount);
            && GroupCount(rows[..i]) + j < |f.emitted|
            && f.emitted[GroupCount(rows[..i]) + j] == Emission(rows[i].dimensions, rows[i].metrics[j])
    decreases |rows|
  {
    var n := |rows| - 1;
    var prefix := rows[..n];
    assert ReportEmissions(prefix, dimensionCount, metricCount).complete;
    if i < n {
      assert prefix[i] == rows[i];
      assert prefix[..i] == rows[..i];
      ReportEmissionAt(prefix, dimensionCount, metricCount, i, j);
    } else {
      assert rows[..i] == prefix;
      ReportEmissionsCount(prefix, dimensionCount, metricCount);
      GroupEmissionsSpec(rows[n].dimensions, rows[n].metrics, metricCount);
    }
  }

  /** The loop in two parts: the rows of a prefix, then (if it got through) those of the rest. */
  lemma {:induction false} ReportEmissionsAppend(a: seq<ReportRow>, b: seq<ReportRow>, dimensionCount: int, metricCount: int)
    ensures var fa := ReportEmissions(a, dimensionCount, metricCount);
            var fb := ReportEmissions(b, dimensionCount, metricCount);
            ReportEmissions(a + b, dimensionCount, metricCount)
            == if fa.complete then Flattened(fa.emitted + fb.emitted, fb.complete) else fa
    decreases |b|
  {
    if b == [] {
      assert a + b == a;
    } else {
      var n := |b| - 1;
      assert (a + b)[..|a + b| - 1] == a + b[..n];
      assert (a + b)[|a + b| - 1] == b[n];
      ReportEmissionsAppend(a, b[..n], dimensionCount, metricCount);
    }
  }

  /**
   * A row without metric groups writes nothing and its dimension values are
   * dropped, provided they fit (if they do not, the loop still stops there).
   */
  lemma RowWithoutGroupsDropped(a: seq<ReportRow>, row: ReportRow, b: seq<ReportRow>,
                                dimensionCount: int, metricCount: int)
    requires row.metrics == [] && |row.dimensions| <= dimensionCount
    ensures ReportEmissions(a + [row] + b, dimensionCount, metricCount)
            == ReportEmissions(a + b, dimensionCount, metricCount)
  {
    assert (a + [row])[..|a|] == a;
    assert (a + [row])[|a|] == row;
    ReportEmissionsAppend(a + [row], b, dimensionCount, metricCount);
    ReportEmissionsAppend(a, b, dimensionCount, metricCount);
  }

  /** Every line ends in a line break and holds no other: one JSON object per line. */
  lemma LineShape(record: Dict)
    ensures var line := Line(record);
            && |line| >= 3 && line[|line| - 1] == '\n'
            && forall i :: 0 <= i < |line| - 1 ==> line[i] != '\n'
  {
    Json.SerializeShape(record);
    var r := Json.Serialize(record);
    assert forall i :: 0 <= i < |r| ==> Line(record)[i] == r[i];
  }

  /** One row with one metric group that fits gives one emission. */
  lemma EmissionsExample()
    ensures ReportEmissions([ReportRow(["US"], [["42"]])], 1, 1) == Flattened([Emission(["US"], ["42"])], true)
  {
    var rows := [ReportRow(["US"], [["42"]])];
    assert rows[..0] == [];
    assert GroupEmissions(["US"], [["42"]], 1) == Flattened([Emission(["US"], ["42"])], true) by {
      assert [["42"]][..0] == [];
    }
  }

  /**
   * The record of that group holds the dimension, the metric, the view id
   * and the raw start date, in that order.
   */
  lemma RecordExample()
    ensures Record(DimensionFields([Header("country", Varchar)], ["US"]), [Header("sessions", "int(11)")],
                   ["42"], "123", "2021-05-01")
            == Dict(["country", "sessions", "viewid", "timestamp"],
                    map["country" := "US", "sessions" := "42", "viewid" := "123", "timestamp" := "2021-05-01"])
  {
    assert Lower("country") == "country";
    assert Lower("sessions") == "sessions";
  }
}
