# Google Analytics reporting to GCS: a verified model

This project models the core of `GoogleAnalyticsReportingToGCSOperator`, an
Airflow operator. The operator asks the Google Analytics Reporting API (through
a hook) for a report of one view over a date range, flattens the report into
newline-delimited JSON and uploads the file to a Cloud Storage bucket.

The model covers five parts of the operator.

- **Settings checks of `__init__`.** A page size above 10000 is refused; there
  is no lower bound. An `include_empty_rows` that is not a `bool` is refused.
  The page-size check comes first. These are `ReportingOperator.CheckSettings`
  and `ReportingOperator.Create`.
- **Date fallback of `execute`.** `since` and `until` are cut to
  `YYYY-MM-DD` when they parse as `%Y-%m-%d %H:%M:%S`. Anything else is passed
  on unchanged. This is `Dates.NormalizeDate`, a strict zero-padded
  recogniser with calendar checks.
- **Header lists.** Every `ga:` is removed from each name, in one
  left-to-right pass as `str.replace` does. Dimensions get `varchar(255)`.
  Metrics get their hint from the metric type table. This is the
  `ColumnHeaders` module.
- **Flattening loop.** For each row, a dict of its dimension values is built,
  keyed by lower-cased header names. For each metric group of the row, that
  dict is copied and the group's values are added. Then `viewid` (the view
  id) and `timestamp` (the raw `since`) are set. The result is written as one
  JSON line.
  - `Flattening` states what the loop produces as functions and proves its
    properties: fan-out, order, field precedence and line shape.
  - `ReportWriter` is the loop itself, as methods over an `OutputFile` whose
    written texts are a `seq<string>`. Each method's postcondition ties it
    to those functions.
- **Upload.** `GoogleAnalyticsReportingToGcsOperator.Execute` returns the
  upload it would make.

Supporting modules:

- `PyDict` models an insertion-ordered Python dict.
- `PyText` models `str.replace` and `str.lower`.
- `Json` stands in for `json.dumps` on string-valued dicts, with its default
  separators and `ensure_ascii`.

Two behaviours of the code are worth knowing:

- **The line-break guard never fires.** The guard is
  `'' if row_counter == len(rows) else '\n'`. `enumerate` only yields counters
  below `len(rows)`, so every line ends in `\n`, the last one included. The
  model follows the code (`Flattening.LineTerminator`). One might read the
  guard as leaving the last line unterminated; it does not.
- **A row or metric group longer than its headers raises `IndexError`.** The
  loop stops there, and nothing is uploaded. The model uses an explicit
  `complete == false` result for this. The lines written before the failure
  are still specified.

## Model

| member | source | states |
|---|---|---|
| ReportingOperator.CheckSettings | operators/google_analytics_reporting_to_gcs_operator.py:84-88 | the page-size error exactly when the page size is above 10000 (no lower bound); the `include_empty_rows` error exactly when the page size passes and the value is not a bool; success exactly when both pass |
| ReportingOperator.DefaultsAccepted | operators/google_analytics_reporting_to_gcs_operator.py:54-55 | the default page size 1000 and the default `include_empty_rows` True pass both checks |
| ReportingOperator.Message | operators/google_analytics_reporting_to_gcs_operator.py:84-88 | each refusal has its non-empty message |
| ReportingOperator.Create | operators/google_analytics_reporting_to_gcs_operator.py:45-88 | fails with the error of the first failing check, otherwise gives a fresh operator holding every setting as given and a page size of at most 10000 |
| ReportingOperator.GoogleAnalyticsReportingToGcsOperator.constructor | operators/google_analytics_reporting_to_gcs_operator.py:62-73 | every field holds the setting of the same name |
| ReportingOperator.GoogleAnalyticsReportingToGcsOperator.Request | operators/google_analytics_reporting_to_gcs_operator.py:101-108 | the hook gets the view id, sampling level, dimensions, metrics, page size and `include_empty_rows` as given |
| ReportingOperator.GoogleAnalyticsReportingToGcsOperator.RequestDates | operators/google_analytics_reporting_to_gcs_operator.py:93-100 | the hook gets `since` and `until` cut to their first ten characters when they are a formatted valid date and time, and unchanged otherwise |
| ReportingOperator.GoogleAnalyticsReportingToGcsOperator.Execute | operators/google_analytics_reporting_to_gcs_operator.py:90-152 | uploads exactly when every row fits its headers, to the configured bucket and object, holding the lines of every emission with the raw `since` as timestamp, as many lines as the report has metric groups |
| ColumnHeaders.MetricType | operators/google_analytics_reporting_to_gcs_operator.py:75-82 | INTEGER gives int(11); CURRENCY, FLOAT and PERCENT give decimal(20,5); TIME gives time; anything else, METRIC_TYPE_UNSPECIFIED, unknown or missing, gives varchar(255), each in both directions |
| ColumnHeaders.StripNamespace | operators/google_analytics_reporting_to_gcs_operator.py:114 | a name without `ga:` is unchanged, and removal never lengthens a name |
| ColumnHeaders.DimensionHeaders | operators/google_analytics_reporting_to_gcs_operator.py:113-117 | one header per dimension name in the same order, each with the stripped name and type varchar(255) |
| ColumnHeaders.MetricHeaders | operators/google_analytics_reporting_to_gcs_operator.py:118-123 | one header per metric entry in the same order, each with the stripped name and the type from the metric table |
| ColumnHeaders.StripLeading | operators/google_analytics_reporting_to_gcs_operator.py:114 | a leading `ga:` before a name that holds no other is removed, leaving the name |
| ColumnHeaders.StripPlain | operators/google_analytics_reporting_to_gcs_operator.py:114 | `ga:` followed by a name without a `g` becomes that name |
| ColumnHeaders.StripLeadingExample | operators/google_analytics_reporting_to_gcs_operator.py:119 | `ga:sessions` becomes `sessions` |
| ColumnHeaders.StripAnywhere | operators/google_analytics_reporting_to_gcs_operator.py:114 | an occurrence of `ga:` is removed wherever it is, not only at the start |
| ColumnHeaders.StripSinglePass | operators/google_analytics_reporting_to_gcs_operator.py:114 | removal is one pass: `gga:a:x` becomes `ga:x` |
| ColumnHeaders.HeadersExample | operators/google_analytics_reporting_to_gcs_operator.py:110-123 | `ga:country` gives the header `country` typed varchar(255), and an INTEGER `ga:sessions` gives `sessions` typed int(11) |
| PyText.RemoveAllFree | operators/google_analytics_reporting_to_gcs_operator.py:114 | `replace` leaves a string without the pattern unchanged |
| PyText.RemoveAllLeading | operators/google_analytics_reporting_to_gcs_operator.py:114 | a leading occurrence is dropped and the scan goes on after it |
| PyText.RemoveAllConcat | operators/google_analytics_reporting_to_gcs_operator.py:114 | text before the first occurrence is kept, the occurrence dropped, and the rest handled alike |
| PyText.RemoveAll | operators/google_analytics_reporting_to_gcs_operator.py:114 | `replace(old, '')` never lengthens a string |
| PyText.Lower | operators/google_analytics_reporting_to_gcs_operator.py:134 | same length, each ASCII capital lowered and other characters kept, no capital left, and the string is unchanged exactly when it had no capital |
| PyText.LowerChar | operators/google_analytics_reporting_to_gcs_operator.py:142 | a capital moves to its lower-case letter, and any other character stays |
| PyText.LowerIdempotent | operators/google_analytics_reporting_to_gcs_operator.py:134 | lowering twice is lowering once |
| PyDict.GetPut | operators/google_analytics_reporting_to_gcs_operator.py:135 | after `d[k] = v`, `k` holds `v` and every other key is unchanged |
| PyDict.Put | operators/google_analytics_reporting_to_gcs_operator.py:135 | after `d[k] = v`, `k` holds `v`, the keys already there keep their order and at most `k` is added |
| PyDict.PutIsDict | operators/google_analytics_reporting_to_gcs_operator.py:143 | assignment keeps a dict well formed, and a new key goes to the end of the order while an existing key keeps its place |
| PyDict.PutAllFresh | operators/google_analytics_reporting_to_gcs_operator.py:139 | updating an empty dict with distinct keys gives exactly those keys, in order, with their values |
| PyDict.PutAll | operators/google_analytics_reporting_to_gcs_operator.py:139 | assigning a list of keys keeps the keys already there first, in order, and adds at most one key per assignment |
| PyDict.Update | operators/google_analytics_reporting_to_gcs_operator.py:139 | `d.update(e)` keeps the keys of `d` first, in order, and adds at most the keys of `e` |
| PyDict.Copy | operators/google_analytics_reporting_to_gcs_operator.py:138-139 | `data = {}; data.update(root_data_obj)` gives a copy equal to `root_data_obj`, key order included |
| Json.EscapeChar | operators/google_analytics_reporting_to_gcs_operator.py:148 | a character becomes non-empty printable ASCII, and a printable character other than quote and backslash stays as it is |
| Json.EscapePrintable | operators/google_analytics_reporting_to_gcs_operator.py:148 | the escaped body of any string is printable ASCII |
| Json.EscapePlain | operators/google_analytics_reporting_to_gcs_operator.py:148 | a string that needs no escape is written as it is |
| Json.Escape | operators/google_analytics_reporting_to_gcs_operator.py:148 | the escaped body of a string; its meaning is stated by `Json.EscapePrintable` and `Json.EscapePlain` |
| Json.QuoteShape | operators/google_analytics_reporting_to_gcs_operator.py:148 | a string literal is printable ASCII and starts and ends with a quote |
| Json.Quote | operators/google_analytics_reporting_to_gcs_operator.py:148 | a JSON string literal; its meaning is stated by `Json.QuoteShape` |
| Json.MembersPrintable | operators/google_analytics_reporting_to_gcs_operator.py:148 | the members of an object are printable ASCII, whatever the keys and values hold |
| Json.Members | operators/google_analytics_reporting_to_gcs_operator.py:148 | the `"key": "value"` members joined by `, `; its meaning is stated by `Json.MembersPrintable` and `Json.SerializeEscapeExample` |
| Json.SerializeShape | operators/google_analytics_reporting_to_gcs_operator.py:148 | `json.dumps` of a record is one physical line: braces at both ends, printable ASCII and no line break inside |
| Json.SerializeEscapeExample | operators/google_analytics_reporting_to_gcs_operator.py:148 | a member is the key, ": " and the value, and a quote and a line break in the value are written as escapes |
| Json.Serialize | operators/google_analytics_reporting_to_gcs_operator.py:148 | `json.dumps` of a dict is an object between braces |
| Dates.DaysInMonth | operators/google_analytics_reporting_to_gcs_operator.py:94 | months have 28 to 31 days, and February has 29 exactly in leap years |
| Dates.ParseDateTime | operators/google_analytics_reporting_to_gcs_operator.py:94 | whatever parses is a valid date and time (years 1 to 9999, real days, seconds up to 59) |
| Dates.FormatDateTime | operators/google_analytics_reporting_to_gcs_operator.py:94 | the formatted date and time is 19 characters and starts with the formatted date |
| Dates.FormatDate | operators/google_analytics_reporting_to_gcs_operator.py:94 | `%Y-%m-%d` gives ten characters, digits with a dash at positions 4 and 7 |
| Dates.Number | operators/google_analytics_reporting_to_gcs_operator.py:94 | the digits of an n-digit field give a number below 10^n |
| Dates.ParseFormat | operators/google_analytics_reporting_to_gcs_operator.py:94 | parsing a formatted date and time gives it back |
| Dates.FormatParse | operators/google_analytics_reporting_to_gcs_operator.py:94 | whatever parses is exactly the formatted text of its value |
| Dates.NormalizeDateCases | operators/google_analytics_reporting_to_gcs_operator.py:93-100 | a formatted valid date and time is cut to its first ten characters; any other value is returned unchanged, never an error |
| Dates.NormalizeDate | operators/google_analytics_reporting_to_gcs_operator.py:93-100 | the value sent is the value itself, or, for a 19-character value, its first ten characters |
| Dates.NormalizeFormatted | operators/google_analytics_reporting_to_gcs_operator.py:93-96 | a formatted date and time is sent as its date |
| Dates.NormalizeIdempotent | operators/google_analytics_reporting_to_gcs_operator.py:93-100 | normalising a normalised value changes nothing |
| Dates.NormalizeDateTimeExample | operators/google_analytics_reporting_to_gcs_operator.py:94 | `2020-01-02 03:04:05` is sent as `2020-01-02` |
| Dates.NormalizeDateOnlyExample | operators/google_analytics_reporting_to_gcs_operator.py:95-96 | `2021-05-01` is sent unchanged |
| Dates.NormalizeInvalidDayExample | operators/google_analytics_reporting_to_gcs_operator.py:95-96 | `2021-02-29 00:00:00`, a day the calendar lacks, is sent unchanged |
| Dates.NormalizeLeapSecondExample | operators/google_analytics_reporting_to_gcs_operator.py:95-96 | `2020-12-31 23:59:60` is sent unchanged |
| Flattening.LineTerminator | operators/google_analytics_reporting_to_gcs_operator.py:128-148 | for every counter `enumerate` yields, the terminator is a line break: the empty-terminator branch is dead |
| Flattening.LineShape | operators/google_analytics_reporting_to_gcs_operator.py:148 | every line ends in its only line break |
| Flattening.Line | operators/google_analytics_reporting_to_gcs_operator.py:148 | a line is at least three characters and ends in a line break |
| Flattening.Lines | operators/google_analytics_reporting_to_gcs_operator.py:128-148 | one line per emission |
| Flattening.EmissionLine | operators/google_analytics_reporting_to_gcs_operator.py:137-148 | the text written for one metric group; its meaning is stated by `ReportWriter.LinesAt` and `ReportWriter.ReportLineAt` (each line is the record of its group) and `Flattening.LineShape` (one JSON object ending the line) |
| Flattening.GetPutColumns | operators/google_analytics_reporting_to_gcs_operator.py:133-135 | after the column assignments, a key holds the value of the last column with that key, or its earlier value if there is none |
| Flattening.Key | operators/google_analytics_reporting_to_gcs_operator.py:134 | the dict key of a column, `name.lower()`; its meaning is stated by `PyText.Lower` and used by `Flattening.GetPutColumns` and `Flattening.RecordGet` |
| Flattening.PutColumns | operators/google_analytics_reporting_to_gcs_operator.py:133-135 | the keys already in the dict stay first, in their order, and at most one key per column value is added |
| Flattening.PutColumnsIsDict | operators/google_analytics_reporting_to_gcs_operator.py:133-135 | column assignments keep a dict well formed |
| Flattening.DimensionFieldsGet | operators/google_analytics_reporting_to_gcs_operator.py:133-135 | the dimension value at position i is stored under the lower-cased name of dimension header i, and a later equal key wins |
| Flattening.DimensionFieldsIsDict | operators/google_analytics_reporting_to_gcs_operator.py:129-135 | the dimension dict of a row is well formed |
| Flattening.DimensionFields | operators/google_analytics_reporting_to_gcs_operator.py:129-135 | `root_data_obj` has at most one key per dimension value |
| Flattening.RecordGetFixed | operators/google_analytics_reporting_to_gcs_operator.py:145-146 | `timestamp` holds the raw `since` and `viewid` the view id, overriding any column of that name |
| Flattening.MetricFieldsGet | operators/google_analytics_reporting_to_gcs_operator.py:137-143 | a metric value overrides a dimension value under the same key |
| Flattening.RecordGet | operators/google_analytics_reporting_to_gcs_operator.py:129-146 | the whole precedence of a record: `timestamp`, then `viewid`, then the last metric with the key, then the last dimension with the key, else absent |
| Flattening.Record | operators/google_analytics_reporting_to_gcs_operator.py:137-146 | the row's keys come first, in their order, then at most one key per metric value and the two fixed keys; `timestamp` holds the raw `since` and `viewid` the view id |
| Flattening.RecordShape | operators/google_analytics_reporting_to_gcs_operator.py:137-146 | a record built on a well-formed dict is a well-formed dict |
| Flattening.SameRowShareDimensions | operators/google_analytics_reporting_to_gcs_operator.py:137-146 | records of one row agree with the row's dimension fields on every key their metrics and the two fixed keys do not set |
| Flattening.GroupEmissionsSpec | operators/google_analytics_reporting_to_gcs_operator.py:137-148 | a row's groups all get through exactly when none has more values than metric headers, and then each group gives one emission, in order |
| Flattening.GroupEmissions | operators/google_analytics_reporting_to_gcs_operator.py:137-143 | at most one emission per metric group, each with the row's dimension values and no more values than metric headers |
| Flattening.ReportEmissionsComplete | operators/google_analytics_reporting_to_gcs_operator.py:128-143 | the loop gets to the end exactly when every row fits its headers |
| Flattening.RowEmissions | operators/google_analytics_reporting_to_gcs_operator.py:129-143 | the emissions of a row fit the headers, carry the row's dimension values and number at most one per group |
| Flattening.ReportEmissions | operators/google_analytics_reporting_to_gcs_operator.py:128-143 | every emission of the report fits the headers, and there are at most as many emissions as metric groups |
| Flattening.ReportEmissionsCount | operators/google_analytics_reporting_to_gcs_operator.py:128-148 | when every row fits, the number of lines is the sum of the rows' group counts |
| Flattening.ReportEmissionAt | operators/google_analytics_reporting_to_gcs_operator.py:128-148 | when every row fits, group j of row i is emission number (groups of the rows before i) + j: row order, then group order |
| Flattening.ReportEmissionsAppend | operators/google_analytics_reporting_to_gcs_operator.py:128-148 | the loop over two runs of rows is the first run's output and, if it got through, the second's after it |
| Flattening.RowWithoutGroupsDropped | operators/google_analytics_reporting_to_gcs_operator.py:128-137 | a row without metric groups writes nothing and its dimension values go nowhere |
| Flattening.EmissionsExample | operators/google_analytics_reporting_to_gcs_operator.py:128-148 | a row `US` with one fitting group `42` gives exactly one emission, and the loop gets to the end |
| Flattening.RecordExample | operators/google_analytics_reporting_to_gcs_operator.py:129-146 | the record of that group has the keys country, sessions, viewid and timestamp, in that order, holding `US`, `42`, the view id and the raw start date |
| ReportWriter.OutputFile.constructor | operators/google_analytics_reporting_to_gcs_operator.py:125 | a new temporary file is empty |
| ReportWriter.OutputFile.Write | operators/google_analytics_reporting_to_gcs_operator.py:148 | a write appends its text and keeps what was written |
| ReportWriter.AssignColumns | operators/google_analytics_reporting_to_gcs_operator.py:133-135 | the enumerate loop gets through exactly when there are no more values than headers, and then makes the column assignments |
| ReportWriter.BuildRecord | operators/google_analytics_reporting_to_gcs_operator.py:138-146 | the copy, metric loop and two fixed keys give the record exactly when the group fits the metric headers |
| ReportWriter.WriteGroups | operators/google_analytics_reporting_to_gcs_operator.py:137-148 | appends one line per group of the row, in order, up to the first group that does not fit, and reports whether all got through |
| ReportWriter.GroupsStep | operators/google_analytics_reporting_to_gcs_operator.py:137-148 | a fitting group adds its emission after those of the groups before it |
| ReportWriter.GroupsStop | operators/google_analytics_reporting_to_gcs_operator.py:141-143 | once a group does not fit, the later groups add nothing |
| ReportWriter.WriteRow | operators/google_analytics_reporting_to_gcs_operator.py:129-148 | a row with too many dimension values writes nothing; otherwise its group lines are appended |
| ReportWriter.WriteRows | operators/google_analytics_reporting_to_gcs_operator.py:128-148 | the file receives the lines of all emissions, in row then group order, and the loop gets through exactly when every row fits |
| ReportWriter.LinesAppend | operators/google_analytics_reporting_to_gcs_operator.py:128-148 | the lines of two runs of emissions are the first run's lines followed by the second's |
| ReportWriter.LinesAt | operators/google_analytics_reporting_to_gcs_operator.py:148 | line k of the file is the line of emission k |
| ReportWriter.ReportLineAt | operators/google_analytics_reporting_to_gcs_operator.py:128-148 | when every row fits, line number (groups of the rows before i) + j of the file is the line of group j of row i, built from that row's dimension values and that group's metric values |
| ReportWriter.RowsStep | operators/google_analytics_reporting_to_gcs_operator.py:128-148 | one more row adds its emissions after those of the rows before it |
| ReportWriter.RowsStop | operators/google_analytics_reporting_to_gcs_operator.py:128-148 | at the first row that does not get through, the output is what was written up to and in that row |

## Left out

- The Analytics hook (authentication, paging, sampling) has no source here. `Execute` takes it as a function from the request to the report.
- The Cloud Storage hook, the upload call and the temporary file's life are I/O. The upload is the value `Execute` returns.
- Errors raised by the hook or by the upload are not modelled.
- Execute: the source hands the file's name to the upload without flushing the file. What Python has buffered may not be on disk yet. The model treats every written line as uploaded.
- Json.Serialize: it is a stand-in for `json.dumps` on dicts of strings. That it agrees with the library on every input is not proved. Non-string values (a numeric `since`, a list `view_id`) are not modelled.
- PyText.Lower: it lowers ASCII letters only. Python's `str.lower` also handles other Unicode letters.
- PyText.LowerChar: it lowers ASCII capitals only, and any other character, such as a non-ASCII capital, stays as it is.
- Dates.ParseDateTime: it accepts zero-padded ASCII fields and one space only. `strptime` also takes unpadded fields such as `2020-1-2 3:4:5`, a space-padded day such as ` 2`, any run of whitespace for the space, and non-ASCII decimal digits. The model passes all of these through unchanged.
- Dates.NormalizeDate: the `str()` coercion of non-string settings is not modelled, since settings are strings.
- Dates.FormatDate: years 1 to 999 are written with four digits. Some C libraries write `strftime('%Y')` unpadded for these years. Dates.NormalizeDate, Dates.NormalizeDateCases, Dates.NormalizeFormatted and ReportingOperator.GoogleAnalyticsReportingToGcsOperator.RequestDates inherit this: `0999-01-01 00:00:00` is sent as `0999-01-01` in the model, where such a library sends `999-01-01`.
- ReportingOperator.CheckSettings: the page size is an integer. A `page_size` that cannot be compared with 10000, such as a string, makes the source raise a `TypeError` at the comparison, which the model does not have.
- A metric header entry without a `name` makes the source fail on `None.replace`. The model always has a name. A missing `type` is modelled (`Option`).
- The header types (`type`) are built as in the source, but the flattening never reads them.
- Airflow's `BaseOperator`, `template_fields`, the extra `*args`/`**kwargs` and the connection-id plumbing carry framework behaviour only.
