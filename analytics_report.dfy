/**
 * The report the Analytics hook returns, as the operator reads it. Every
 * key the operator reads with `.get(key, [])` or `.get(key, {})` is a
 * sequence here, and a missing key is the empty sequence.
 */
module AnalyticsReport {
  import opened Wrappers

  /** One entry of `columnHeader.metricHeader.metricHeaderEntries`; the type may be absent. */
  datatype MetricHeaderEntry = MetricHeaderEntry(name: string, metricType: Option<string>)

  /** `columnHeader`: the dimension names and the metric entries, in report order. */
  datatype ColumnHeader = ColumnHeader(dimensions: seq<string>, metricHeaderEntries: seq<MetricHeaderEntry>)

  /**
   * One of `data.rows`: its dimension values, positionally matching the
   * dimension names, and its metric groups (each `{'values': [...]}`),
   * each positionally matching the metric entries.
   */
  datatype ReportRow = ReportRow(dimensions: seq<string>, metrics: seq<seq<string>>)

  datatype Report = Report(columnHeader: ColumnHeader, rows: seq<ReportRow>)
}
