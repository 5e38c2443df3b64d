/**
 * `GoogleAnalyticsReportingToGCSOperator`: its settings, checked when it is
 * created, and `execute`, which asks the Analytics hook for a report, writes
 * it as newline-delimited JSON and uploads the file to a bucket.
 *
 * The hook is a parameter of `Execute`, a function from the request to the
 * report it returns; the upload is the value `Execute` returns.
 */
module ReportingOperator {
  import opened Wrappers
  import opened AnalyticsReport
  import opened ColumnHeaders
  import opened Flattening
  import opened ReportWriter
  import opened Dates

  /** The largest page size the operator accepts. */
  const MaxPageSize: int := 10000

  /** The defaults of the optional settings. */
  const DefaultPageSize: int := 1000
  const DefaultIncludeEmptyRows: PyValue := PyBool(true)

  /** A Python value given for `include_empty_rows`; only `PyBool` is a `bool`. */
  datatype PyValue = PyBool(b: bool) | PyInt(i: int) | PyStr(s: string) | PyNone

  /** Why the operator refuses its settings. */
  datatype ConfigError = PageSizeTooLarge | IncludeEmptyRowsNotBool

  function Message(e: ConfigError): (m: string)
    ensures |m| > 0
  {
    match e
    case PageSizeTooLarge => "Please specify a page size equal to or lower than 10000."
    case IncludeEmptyRowsNotBool => "Please specificy \"include_empty_rows\" as a boolean."
  }

  /**
   * The two checks of `__init__`, page size first: a page size above 10000
   * is refused (there is no lower bound), and so is a non-boolean
   * `include_empty_rows`.
   */
  function CheckSettings(pageSize: int, includeEmptyRows: PyValue): (r: Outcome<ConfigError>)
    ensures r == Fail(PageSizeTooLarge) <==> pageSize > MaxPageSize
    ensures r == Fail(IncludeEmptyRowsNotBool) <==> pageSize <= MaxPageSize && !includeEmptyRows.PyBool?
    ensures r.Pass? <==> pageSize <= MaxPageSize && includeEmptyRows.PyBool?
  {
    if pageSize > MaxPageSize then Fail(PageSizeTooLarge)
    else if !includeEmptyRows.PyBool? then Fail(IncludeEmptyRowsNotBool)
    else Pass
  }

  /** What `execute` passes to `get_analytics_report`. */
  datatype ReportRequest = ReportRequest(viewId: string, since: string, until: string,
                                         samplingLevel: Option<string>, dimensions: seq<string>,
                                         metrics: seq<string>, pageSize: int, includeEmptyRows: bool)

  /** The file handed to the bucket: where it goes and the lines in it. */
  datatype Upload = Upload(bucket: string, objectName: string, lines: seq<string>)

  /** Why `execute` stops before the upload: a row or metric group longer than its headers. */
  datatype ExecuteError = IndexOutOfRange

  class GoogleAnalyticsReportingToGcsOperator {
    const googleAnalyticsConnId: string
    const viewId: string
    const since: string
    const until: string
    const samplingLevel: Option<string>
    const dimensions: seq<string>
    const metrics: seq<string>
    const pageSize: int
    const includeEmptyRows: bool
    const gcsConnId: string
    const gcsBucket: string
    const gcsObjname: string

    /** The assignments of `__init__`; `Create` adds its two checks. */
    constructor(googleAnalyticsConnId: string, viewId: string, since: string, until: string,
                dimensions: seq<string>, metrics: seq<string>, gcsConnId: string, gcsBucket: string,
                gcsObjname: string, pageSize: int, includeEmptyRows: bool, samplingLevel: Option<string>)
      ensures this.googleAnalyticsConnId == googleAnalyticsConnId && this.viewId == viewId
      ensures this.since == since && this.until == until
      ensures this.dimensions == dimensions && this.metrics == metrics
      ensures this.gcsConnId == gcsConnId && this.gcsBucket == gcsBucket && this.gcsObjname == gcsObjname
      ensures this.pageSize == pageSize && this.includeEmptyRows == includeEmptyRows
      ensures this.samplingLevel == samplingLevel
    {
      this.googleAnalyticsConnId := googleAnalyticsConnId;
      this.viewId := viewId;
      this.since := since;
      this.until := until;
      this.samplingLevel := samplingLevel;
      this.dimensions := dimensions;
      this.metrics := metrics;
      this.pageSize := pageSize;
      this.includeEmptyRows := includeEmptyRows;
      this.gcsConnId := gcsConnId;
      this.gcsBucket := gcsBucket;
      this.gcsObjname := gcsObjname;
    }

    /** The request of `execute`: the two dates normalised, every other setting as given. */
    function Request(): (q: ReportRequest)
      ensures q.viewId == viewId && q.samplingLevel == samplingLevel
      ensures q.dimensions == dimensions && q.metrics == metrics
      ensures q.pageSize == pageSize && q.includeEmptyRows == includeEmptyRows
    {
      ReportRequest(viewId, NormalizeDate(since), NormalizeDate(until), samplingLevel,
                    dimensions, metrics, pageSize, includeEmptyRows)
    }

    /**
     * The dates of the request: `since` and `until` cut to their date when
     * they are a date and time, passed as they are otherwise.
     */
    lemma RequestDates()
      ensures (exists t :: ValidDateTime(t) && FormatDateTime(t) == since) ==> Request().since == since[..10]
      ensures (forall t :: ValidDateTime(t) ==> FormatDateTime(t) != since) ==> Request().since == since
      ensures (exists t :: ValidDateTime(t) && FormatDateTime(t) == until) ==> Request().until == until[..10]
      ensures (forall t :: ValidDateTime(t) ==> FormatDateTime(t) != until) ==> Request().until == until
    {
      NormalizeDateCases(since);
      NormalizeDateCases(until);
    }

    /**
     * `execute`: fetch the report, build the headers, write one line per
     * metric group and upload the file. The upload happens exactly when
     * every row fits its headers, and it holds the lines of the whole
     * report, each with the raw `since` as its timestamp.
     */
    method Execute(fetch: ReportRequest -> Report) returns (r: Result<Upload, ExecuteError>)
      ensures var report := fetch(Request());
              var dimensionHeaders := DimensionHeaders(report.columnHeader.dimensions);
              var metricHeaders := MetricHeaders(report.columnHeader.metricHeaderEntries);
              var f := ReportEmissions(report.rows, |dimensionHeaders|, |metricHeaders|);
              && (r.Success? <==> f.complete)
              && (r.Success? ==> r.value == Upload(gcsBucket, gcsObjname,
                                                  Lines(dimensionHeaders, metricHeaders, f.emitted, viewId, since)))
              && (r.Success? ==> |r.value.lines| == GroupCount(report.rows))
    {
      var report := fetch(Request());
      var dimensionHeaders := DimensionHeaders(report.columnHeader.dimensions);
      var metricHeaders := MetricHeaders(report.columnHeader.metricHeaderEntries);
      var file := new OutputFile();
      var ok := WriteRows(file, dimensionHeaders, metricHeaders, report.rows, viewId, since);
      if !ok {
        return Failure(IndexOutOfRange);
      }
      ReportEmissionsCount(report.rows, |dimensionHeaders|, |metricHeaders|);
      r := Success(Upload(gcsBucket, gcsObjname, file.written));
    }
  }

  /** The defaults pass both checks, so an operator given only the required settings is created. */
  lemma DefaultsAccepted()
    ensures CheckSettings(DefaultPageSize, DefaultIncludeEmptyRows).Pass?
  {
  }

  /**
   * `GoogleAnalyticsReportingToGCSOperator(...)`: the operator with the
   * given settings, or the error `__init__` raises.
   */
  method Create(googleAnalyticsConnId: string, viewId: string, since: string, until: string,
                dimensions: seq<string>, metrics: seq<string>, gcsConnId: string, gcsBucket: string,
                gcsObjname: string, pageSize: int, includeEmptyRows: PyValue, samplingLevel: Option<string>)
    returns (r: Result<GoogleAnalyticsReportingToGcsOperator, ConfigError>)
    ensures CheckSettings(pageSize, includeEmptyRows).Fail? ==> r == Failure(CheckSettings(pageSize, includeEmptyRows).error)
    ensures CheckSettings(pageSize, includeEmptyRows).Pass? ==>
              && r.Success? && fresh(r.value) && r.value.pageSize <= MaxPageSize
              && r.value.viewId == viewId && r.value.since == since && r.value.until == until
              && r.value.dimensions == dimensions && r.value.metrics == metrics
              && r.value.gcsBucket == gcsBucket && r.value.gcsObjname == gcsObjname
              && r.value.pageSize == pageSize && r.value.includeEmptyRows == includeEmptyRows.b
              && r.value.samplingLevel == samplingLevel
              && r.value.googleAnalyticsConnId == googleAnalyticsConnId && r.value.gcsConnId == gcsConnId
  {
    match CheckSettings(pageSize, includeEmptyRows)
    case Fail(e) =>
      r := Failure(e);
    case Pass =>
      var op := new GoogleAnalyticsReportingToGcsOperator(googleAnalyticsConnId, viewId, since, until,
                                                          dimensions, metrics, gcsConnId, gcsBucket, gcsObjname,
                                                          pageSize, includeEmptyRows.b, samplingLevel);
      r := Success(op);
  }
}
