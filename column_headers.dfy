/**
 * The header lists `execute` builds from the report's column header:
 * namespace-free names, `varchar(255)` for every dimension and a type hint
 * looked up in the metric type table for every metric.
 */
module ColumnHeaders {
  import opened Wrappers
  import opened PyText
  import opened AnalyticsReport

  datatype Header = Header(name: string, columnType: string)

  /** The namespace prefix of Analytics column names. */
  const Namespace: string := "ga:"

  /** The type hint of every dimension, and of any metric whose type is not in the table. */
  const Varchar: string := "varchar(255)"

  /** The fixed table from Analytics metric types to column-type hints. */
  const MetricMap: map<string, string> := map[
    "METRIC_TYPE_UNSPECIFIED" := "varchar(255)",
    "CURRENCY" := "decimal(20,5)",
    "INTEGER" := "int(11)",
    "FLOAT" := "decimal(20,5)",
    "PERCENT" := "decimal(20,5)",
    "TIME" := "time"
  ]

  /** `name.replace('ga:', '')`. */
  function StripNamespace(name: string): (r: string)
    ensures Free(name, Namespace) ==> r == name
    ensures |r| <= |name|
  {
    RemoveAllFree(name, Namespace);
    RemoveAll(name, Namespace)
  }

  /**
   * `metricMap.get(type, 'varchar(255)')`: the hint for each known type, and
   * `varchar(255)` for METRIC_TYPE_UNSPECIFIED, an unknown type or none.
   */
  function MetricType(t: Option<string>): (r: string)
    ensures r == "int(11)" <==> t == Some("INTEGER")
    ensures r == "decimal(20,5)" <==> t == Some("CURRENCY") || t == Some("FLOAT") || t == Some("PERCENT")
    ensures r == "time" <==> t == Some("TIME")
    ensures r == Varchar <==> !(t == Some("CURRENCY") || t == Some("INTEGER") || t == Some("FLOAT")
                                || t == Some("PERCENT") || t == Some("TIME"))
  {
    if t.Some? && t.value in MetricMap then MetricMap[t.value] else Varchar
  }

  /** `dimensionHeaders`: one header per dimension name, in order, all `varchar(255)`. */
  function DimensionHeaders(names: seq<string>): (r: seq<Header>)
    ensures |r| == |names|
    ensures forall i :: 0 <= i < |names| ==> r[i] == Header(StripNamespace(names[i]), Varchar)
  {
    if names == [] then []
    else [Header(StripNamespace(names[0]), Varchar)] + DimensionHeaders(names[1..])
  }

  /** `metricHeaders`: one header per metric entry, in order, typed through MetricType. */
  function MetricHeaders(entries: seq<MetricHeaderEntry>): (r: seq<Header>)
    ensures |r| == |entries|
    ensures forall i :: 0 <= i < |entries| ==>
              r[i] == Header(StripNamespace(entries[i].name), MetricType(entries[i].metricType))
  {
    if entries == [] then []
    else [Header(StripNamespace(entries[0].name), MetricType(entries[0].metricType))]
         + MetricHeaders(entries[1..])
  }

  /** A name without a 'g' holds no `ga:`. */
  lemma FreeWithoutG(name: string)
    requires forall i :: 0 <= i < |name| ==> name[i] != 'g'
    ensures Free(name, Namespace)
  {
    forall i | 0 <= i <= |name| - |Namespace| ensures !OccursAt(name, Namespace, i) {
      assert name[i..i + 3][0] == name[i] != 'g';
    }
  }

  /** A leading `ga:` goes and a name without one stays. */
  lemma StripLeading(name: string)
    requires Free(name, Namespace)
    ensures StripNamespace(Namespace + name) == name
  {
    RemoveAllLeading(Namespace, name);
    RemoveAllFree(name, Namespace);
  }

  /** A leading `ga:` goes from a name without a 'g'. */
  lemma StripPlain(name: string)
    requires forall i :: 0 <= i < |name| ==> name[i] != 'g'
    ensures StripNamespace(Namespace + name) == name
  {
    FreeWithoutG(name);
    StripLeading(name);
  }

  /** The prefix goes: 'ga:sessions' becomes 'sessions'. */
  lemma StripLeadingExample()
    ensures StripNamespace("ga:sessions") == "sessions"
  {
    StripPlain("sessions");
    assert Namespace + "sessions" == "ga:sessions";
  }

  /**
   * Every occurrence goes, not only a leading one: an occurrence after a
   * part that holds none (and does not end in a partial 'ga') is cut out.
   */
  lemma StripAnywhere(u: string, v: string)
    requires Free(u + "ga", Namespace)
    ensures StripNamespace(u + Namespace + v) == u + StripNamespace(v)
  {
    assert Namespace[..2] == "ga";
    RemoveAllConcat(u, Namespace, v);
  }

  /** The scan is a single pass: cutting one occurrence can join a new one, which stays. */
  lemma StripSinglePass()
    ensures StripNamespace("gga:a:x") == "ga:x"
  {
    var s := "gga:a:x";
    assert s[..3][1] == 'g' && Namespace[1] == 'a';
    assert s[1..] == Namespace + "a:x";
    RemoveAllLeading(Namespace, "a:x");
    assert "a:x"[..3][0] == 'a' && Namespace[0] == 'g';
    assert "a:x"[1..] == ":x";
    assert RemoveAll(":x", Namespace) == ":x";
  }

  /** The headers of a report with one dimension and one integer metric. */
  lemma HeadersExample()
    ensures DimensionHeaders(["ga:country"]) == [Header("country", Varchar)]
    ensures MetricHeaders([MetricHeaderEntry("ga:sessions", Some("INTEGER"))]) == [Header("sessions", "int(11)")]
  {
    StripLeadingExample();
    StripPlain("country");
    assert Namespace + "country" == "ga:country";
  }
}
