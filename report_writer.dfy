/**
 * The loop of `execute` as it runs: dicts built key by key, one JSON line
 * written to the temporary file per metric group. Each method's
 * postcondition ties what it builds or writes to the functions of
 * `Flattening`, whose properties are proved there.
 */
module ReportWriter {
  import opened PyText
  import opened PyDict
  import opened AnalyticsReport
  import opened ColumnHeaders
  import opened Flattening
  import Json

  /** The temporary file the lines go to: the texts written to it, in order. */
  class OutputFile {
    var written: seq<string>

    constructor()
      ensures written == []
    {
      written := [];
    }

    method Write(text: string)
      modifies this
      ensures written == old(written) + [text]
    {
      written := written + [text];
    }
  }

  /**
   * `for index, value in enumerate(values): d[headers[index].name.lower()] = value`.
   * It gets through exactly when there are no more values than headers (an
   * IndexError otherwise), and then it has made the assignments of `PutColumns`.
   */
  method AssignColumns(d: Dict, headers: seq<Header>, values: seq<string>) returns (r: Dict, ok: bool)
    ensures ok <==> |values| <= |headers|
    ensures ok ==> r == PutColumns(d, headers, values)
  {
    r := d;
    var index := 0;
    while index < |values|
      invariant 0 <= index <= |values| && index <= |headers|
      invariant r == PutColumns(d, headers, values[..index])
    {
      if index >= |headers| {
        return r, false;
      }
      var header := Lower(headers[index].name);
      assert values[..index + 1][..index] == values[..index];
      r := Put(r, header, values[index]);
      index := index + 1;
    }
    assert values[..index] == values;
    ok := true;
  }

  /**
   * `data = {}; data.update(root_data_obj)`, the group's metric values, then
   * `viewid` and `timestamp`: the record of `Record`, unless the group has
   * more values than there are metric headers.
   */
  method BuildRecord(root: Dict, metricHeaders: seq<Header>, group: seq<string>, viewId: string, since: string)
    returns (data: Dict, ok: bool)
    requires IsDict(root)
    ensures ok <==> |group| <= |metricHeaders|
    ensures ok ==> data == Record(root, metricHeaders, group, viewId, since)
  {
    data := Empty;
    data := Update(data, root);
    Copy(root);
    data, ok := AssignColumns(data, metricHeaders, group);
    if ok {
      data := Put(data, ViewIdKey, viewId);
      data := Put(data, TimestampKey, since);
    }
  }

  /** One more emission adds its line at the end. */
  lemma LinesSnoc(dimensionHeaders: seq<Header>, metricHeaders: seq<Header>, es: seq<Emission>, e: Emission,
                  viewId: string, since: string)
    requires AllFit(es, |dimensionHeaders|, |metricHeaders|)
    requires |e.dimensions| <= |dimensionHeaders| && |e.values| <= |metricHeaders|
    ensures AllFit(es + [e], |dimensionHeaders|, |metricHeaders|)
    ensures Lines(dimensionHeaders, metricHeaders, es + [e], viewId, since)
            == Lines(dimensionHeaders, metricHeaders, es, viewId, since)
               + [EmissionLine(dimensionHeaders, metricHeaders, e, viewId, since)]
  {
    assert (es + [e])[..|es|] == es;
    assert (es + [e])[|es|] == e;
  }

  /** Line k of the output is the line of emission k. */
  lemma LinesAt(dimensionHeaders: seq<Header>, metricHeaders: seq<Header>, es: seq<Emission>,
                viewId: string, since: string, k: int)
    requires AllFit(es, |dimensionHeaders|, |metricHeaders|) && 0 <= k < |es|
    ensures Lines(dimensionHeaders, metricHeaders, es, viewId, since)[k]
            == EmissionLine(dimensionHeaders, metricHeaders, es[k], viewId, since)
  {
    var init := es[..k];
    var a := es[..k + 1];
    var b := es[k + 1..];
    assert es == a + b;
    assert a == init + [es[k]];
    AllFitTake(es, k, |dimensionHeaders|, |metricHeaders|);
    AllFitTake(es, k + 1, |dimensionHeaders|, |metricHeaders|);
    AllFitDrop(es, k + 1, |dimensionHeaders|, |metricHeaders|);
    LinesAppend(dimensionHeaders, metricHeaders, a, b, viewId, since);
    LinesSnoc(dimensionHeaders, metricHeaders, init, es[k], viewId, since);
  }

  /**
   * Order in the file: when every row fits, line number (groups of the rows
   * before i) + j is the line of group j of row i.
   */
  lemma ReportLineAt(dimensionHeaders: seq<Header>, metricHeaders: seq<Header>, rows: seq<ReportRow>,
                     viewId: string, since: string, i: int, j: int)
    requires ReportEmissions(rows, |dimensionHeaders|, |metricHeaders|).complete
    requires 0 <= i < |rows| && 0 <= j < |rows[i].metrics|
    ensures var es := ReportEmissions(rows, |dimensionHeaders|, |metricHeaders|).emitted;
            var n := GroupCount(rows[..i]) + j;
            && n < |es|
            && |rows[i].dimensions| <= |dimensionHeaders| && |rows[i].metrics[j]| <= |metricHeaders|
            && Lines(dimensionHeaders, metricHeaders, es, viewId, since)[n]
               == EmissionLine(dimensionHeaders, metricHeaders, Emission(rows[i].dimensions, rows[i].metrics[j]),
                               viewId, since)
  {
    ReportEmissionAt(rows, |dimensionHeaders|, |metricHeaders|, i, j);
    var es := ReportEmissions(rows, |dimensionHeaders|, |metricHeaders|).emitted;
    LineOf(dimensionHeaders, metricHeaders, es, viewId, since, GroupCount(rows[..i]) + j,
           Emission(rows[i].dimensions, rows[i].metrics[j]));
  }

  lemma LineOf(dimensionHeaders: seq<Header>, metricHeaders: seq<Header>, es: seq<Emission>,
               viewId: string, since: string, k: int, e: Emission)
    requires AllFit(es, |dimensionHeaders|, |metricHeaders|) && 0 <= k < |es| && es[k] == e
    ensures |e.dimensions| <= |dimensionHeaders| && |e.values| <= |metricHeaders|
    ensures Lines(dimensionHeaders, metricHeaders, es, viewId, since)[k]
            == EmissionLine(dimensionHeaders, metricHeaders, e, viewId, since)
  {
    LinesAt(dimensionHeaders, metricHeaders, es, viewId, since, k);
  }

  lemma AllFitTake(es: seq<Emission>, n: int, dimensionCount: int, metricCount: int)
    requires AllFit(es, dimensionCount, metricCount) && 0 <= n <= |es|
    ensures AllFit(es[..n], dimensionCount, metricCount)
  {
    assert forall i :: 0 <= i < n ==> es[..n][i] == es[i];
  }

  lemma AllFitDrop(es: seq<Emission>, n: int, dimensionCount: int, metricCount: int)
    requires AllFit(es, dimensionCount, metricCount) && 0 <= n <= |es|
    ensures AllFit(es[n..], dimensionCount, metricCount)
  {
    assert forall i :: 0 <= i < |es| - n ==> es[n..][i] == es[n + i];
  }

  /** Emissions that fit still fit when put together. */
  lemma AllFitAppend(a: seq<Emission>, b: seq<Emission>, dimensionCount: int, metricCount: int)
    requires AllFit(a, dimensionCount, metricCount) && AllFit(b, dimensionCount, metricCount)
    ensures AllFit(a + b, dimensionCount, metricCount)
  {
    assert forall i :: 0 <= i < |a + b| ==> (a + b)[i] == if i < |a| then a[i] else b[i - |a|];
  }

  /** The lines of a concatenation are the concatenation of the lines. */
  lemma {:induction false} LinesAppend(dimensionHeaders: seq<Header>, metricHeaders: seq<Header>,
                                       a: seq<Emission>, b: seq<Emission>, viewId: string, since: string)
    requires AllFit(a, |dimensionHeaders|, |metricHeaders|) && AllFit(b, |dimensionHeaders|, |metricHeaders|)
    ensures AllFit(a + b, |dimensionHeaders|, |metricHeaders|)
    ensures Lines(dimensionHeaders, metricHeaders, a + b, viewId, since)
            == Lines(dimensionHeaders, metricHeaders, a, viewId, since) + Lines(dimensionHeaders, metricHeaders, b, viewId, since)
    decreases |b|
  {
    AllFitAppend(a, b, |dimensionHeaders|, |metricHeaders|);
    if b == [] {
      assert a + b == a;
    } else {
      var n := |b| - 1;
      var init := b[..n];
      var last := b[n];
      assert b == init + [last];
      assert a + b == (a + init) + [last];
      assert AllFit(init, |dimensionHeaders|, |metricHeaders|);
      LinesAppend(dimensionHeaders, metricHeaders, a, init, viewId, since);
      LinesSnoc(dimensionHeaders, metricHeaders, a + init, last, viewId, since);
      LinesSnoc(dimensionHeaders, metricHeaders, init, last, viewId, since);
      ConcatAssoc(Lines(dimensionHeaders, metricHeaders, a, viewId, since),
                  Lines(dimensionHeaders, metricHeaders, init, viewId, since),
                  [EmissionLine(dimensionHeaders, metricHeaders, last, viewId, since)]);
    }
  }

  /**
   * The metric groups of row number `rowCounter` of `rowCount` rows, whose
   * dimension fields are `root`: one line per group, in order, up to the
   * first group with more values than metric headers.
   */
  method WriteGroups(file: OutputFile, dimensionHeaders: seq<Header>, metricHeaders: seq<Header>,
                     root: Dict, row: ReportRow, rowCounter: int, rowCount: int, viewId: string, since: string)
    returns (ok: bool)
    requires 0 <= rowCounter < rowCount
    requires |row.dimensions| <= |dimensionHeaders|
    requires root == DimensionFields(dimensionHeaders, row.dimensions)
    modifies file
    ensures var f := GroupEmissions(row.dimensions, row.metrics, |metricHeaders|);
            && AllFit(f.emitted, |dimensionHeaders|, |metricHeaders|)
            && ok == f.complete
            && file.written == old(file.written) + Lines(dimensionHeaders, metricHeaders, f.emitted, viewId, since)
  {
    DimensionFieldsIsDict(dimensionHeaders, row.dimensions);
    var groups := row.metrics;
    var j := 0;
    while j < |groups|
      invariant 0 <= j <= |groups|
      invariant GroupEmissions(row.dimensions, groups[..j], |metricHeaders|).complete
      invariant AllFit(GroupEmissions(row.dimensions, groups[..j], |metricHeaders|).emitted, |dimensionHeaders|, |metricHeaders|)
      invariant file.written == old(file.written)
                + Lines(dimensionHeaders, metricHeaders, GroupEmissions(row.dimensions, groups[..j], |metricHeaders|).emitted, viewId, since)
    {
      ghost var pre := GroupEmissions(row.dimensions, groups[..j], |metricHeaders|);
      var data, fits := BuildRecord(root, metricHeaders, groups[j], viewId, since);
      if !fits {
        GroupsStop(row.dimensions, groups, j, |metricHeaders|);
        return false;
      }
      var text := Json.Serialize(data) + LineTerminator(rowCounter, rowCount);
      GroupLine(dimensionHeaders, metricHeaders, row.dimensions, groups, j, pre.emitted, viewId, since, text);
      ConcatAssoc(old(file.written), Lines(dimensionHeaders, metricHeaders, pre.emitted, viewId, since), [text]);
      file.Write(text);
      j := j + 1;
    }
    assert groups[..j] == groups;
    ok := true;
  }

  /** One more group that fits adds its line after the lines of the groups before it. */
  lemma GroupLine(dimensionHeaders: seq<Header>, metricHeaders: seq<Header>, dimensions: seq<string>,
                  groups: seq<seq<string>>, j: int, pre: seq<Emission>, viewId: string, since: string, text: string)
    requires 0 <= j < |groups|
    requires |dimensions| <= |dimensionHeaders| && |groups[j]| <= |metricHeaders|
    requires GroupEmissions(dimensions, groups[..j], |metricHeaders|).complete
    requires pre == GroupEmissions(dimensions, groups[..j], |metricHeaders|).emitted
    requires AllFit(pre, |dimensionHeaders|, |metricHeaders|)
    requires text == EmissionLine(dimensionHeaders, metricHeaders, Emission(dimensions, groups[j]), viewId, since)
    ensures GroupEmissions(dimensions, groups[..j + 1], |metricHeaders|).complete
    ensures AllFit(GroupEmissions(dimensions, groups[..j + 1], |metricHeaders|).emitted, |dimensionHeaders|, |metricHeaders|)
    ensures Lines(dimensionHeaders, metricHeaders, GroupEmissions(dimensions, groups[..j + 1], |metricHeaders|).emitted, viewId, since)
            == Lines(dimensionHeaders, metricHeaders, pre, viewId, since) + [text]
  {
    GroupsStep(dimensions, groups, j, |metricHeaders|);
    LinesSnoc(dimensionHeaders, metricHeaders, pre, Emission(dimensions, groups[j]), viewId, since);
  }

  /** One more group that fits: its emission follows those of the groups before it. */
  lemma GroupsStep(dimensions: seq<string>, groups: seq<seq<string>>, j: int, metricCount: int)
    requires 0 <= j < |groups| && |groups[j]| <= metricCount
    requires GroupEmissions(dimensions, groups[..j], metricCount).complete
    ensures GroupEmissions(dimensions, groups[..j + 1], metricCount)
            == Flattened(GroupEmissions(dimensions, groups[..j], metricCount).emitted + [Emission(dimensions, groups[j])], true)
  {
    assert groups[..j + 1][..j] == groups[..j];
    assert groups[..j + 1][j] == groups[j];
  }

  /** Once a group does not fit, the groups after it change nothing. */
  lemma {:induction false} GroupsStop(dimensions: seq<string>, groups: seq<seq<string>>, j: int, metricCount: int)
    requires 0 <= j < |groups| && |groups[j]| > metricCount
    requires GroupEmissions(dimensions, groups[..j], metricCount).complete
    ensures GroupEmissions(dimensions, groups, metricCount)
            == Flattened(GroupEmissions(dimensions, groups[..j], metricCount).emitted, false)
    decreases |groups|
  {
    var n := |groups| - 1;
    if j < n {
      assert groups[..n][..j] == groups[..j];
      GroupsStop(dimensions, groups[..n], j, metricCount);
    } else {
      assert groups[..n] == groups[..j];
    }
  }

  /**
   * One row: its dimension fields, then a line per metric group, unless it
   * has more dimension values than dimension headers, in which case it
   * writes nothing.
   */
  method WriteRow(file: OutputFile, dimensionHeaders: seq<Header>, metricHeaders: seq<Header>,
                  row: ReportRow, rowCounter: int, rowCount: int, viewId: string, since: string)
    returns (ok: bool)
    requires 0 <= rowCounter < rowCount
    modifies file
    ensures var f := RowEmissions(row, |dimensionHeaders|, |metricHeaders|);
            && ok == f.complete
            && file.written == old(file.written) + Lines(dimensionHeaders, metricHeaders, f.emitted, viewId, since)
  {
    var root, fits := AssignColumns(Empty, dimensionHeaders, row.dimensions);
    if !fits {
      assert old(file.written) + [] == file.written;
      return false;
    }
    ok := WriteGroups(file, dimensionHeaders, metricHeaders, root, row, rowCounter, rowCount, viewId, since);
  }

  /**
   * The whole loop over `rows`: one line per metric group, row by row, up
   * to the first row or group that does not fit its headers. It gets
   * through exactly when every row fits.
   */
  method WriteRows(file: OutputFile, dimensionHeaders: seq<Header>, metricHeaders: seq<Header>,
                   rows: seq<ReportRow>, viewId: string, since: string)
    returns (ok: bool)
    modifies file
    ensures var f := ReportEmissions(rows, |dimensionHeaders|, |metricHeaders|);
            && ok == f.complete
            && file.written == old(file.written) + Lines(dimensionHeaders, metricHeaders, f.emitted, viewId, since)
  {
    var rowCounter := 0;
    while rowCounter < |rows|
      invariant 0 <= rowCounter <= |rows|
      invariant ReportEmissions(rows[..rowCounter], |dimensionHeaders|, |metricHeaders|).complete
      invariant file.written == old(file.written)
                + Lines(dimensionHeaders, metricHeaders,
                        ReportEmissions(rows[..rowCounter], |dimensionHeaders|, |metricHeaders|).emitted, viewId, since)
    {
      ghost var before := file.written;
      ghost var pre := ReportEmissions(rows[..rowCounter], |dimensionHeaders|, |metricHeaders|);
      ghost var last := RowEmissions(rows[rowCounter], |dimensionHeaders|, |metricHeaders|);
      var rowOk := WriteRow(file, dimensionHeaders, metricHeaders, rows[rowCounter], rowCounter, |rows|, viewId, since);
      RowsStep(rows, rowCounter, |dimensionHeaders|, |metricHeaders|);
      LinesAppend(dimensionHeaders, metricHeaders, pre.emitted, last.emitted, viewId, since);
      ConcatAssoc(old(file.written), Lines(dimensionHeaders, metricHeaders, pre.emitted, viewId, since),
                  Lines(dimensionHeaders, metricHeaders, last.emitted, viewId, since));
      if !rowOk {
        RowsStop(rows, rowCounter, |dimensionHeaders|, |metricHeaders|);
        return false;
      }
      rowCounter := rowCounter + 1;
    }
    assert rows[..rowCounter] == rows;
    ok := true;
  }

  lemma ConcatAssoc(a: seq<string>, b: seq<string>, c: seq<string>)
    ensures a + (b + c) == (a + b) + c
  {
  }

  /** One more row: its emissions follow those of the rows before it. */
  lemma RowsStep(rows: seq<ReportRow>, i: int, dimensionCount: int, metricCount: int)
    requires 0 <= i < |rows|
    requires ReportEmissions(rows[..i], dimensionCount, metricCount).complete
    ensures var last := RowEmissions(rows[i], dimensionCount, metricCount);
            ReportEmissions(rows[..i + 1], dimensionCount, metricCount)
            == Flattened(ReportEmissions(rows[..i], dimensionCount, metricCount).emitted + last.emitted, last.complete)
  {
    assert rows[..i + 1][..i] == rows[..i];
    assert rows[..i + 1][i] == rows[i];
  }

  /** When row `i` is the first that does not get through, the loop ends with what it wrote up to there. */
  lemma RowsStop(rows: seq<ReportRow>, i: int, dimensionCount: int, metricCount: int)
    requires 0 <= i < |rows|
    requires ReportEmissions(rows[..i], dimensionCount, metricCount).complete
    requires !RowEmissions(rows[i], dimensionCount, metricCount).complete
    ensures ReportEmissions(rows, dimensionCount, metricCount)
            == ReportEmissions(rows[..i + 1], dimensionCount, metricCount)
    ensures !ReportEmissions(rows, dimensionCount, metricCount).complete
  {
    RowsStep(rows, i, dimensionCount, metricCount);
    assert rows == rows[..i + 1] + rows[i + 1..];
    ReportEmissionsAppend(rows[..i + 1], rows[i + 1..], dimensionCount, metricCount);
  }
}
