/**
 * The rows the analyses read: one incident report joined with its analysis,
 * as the SQL queries select them, and the DBSCAN label pandas attaches to it.
 */
module Reports {

  /** Timestamps are integer microseconds, the resolution of a PostgreSQL timestamp. */
  const MICROS_PER_DAY: int := 86_400_000_000

  /** The label DBSCAN gives a point that belongs to no cluster. */
  const NOISE: int := -1

  /**
   * `dayOfWeek` (0 = Sunday) and `hourOfDay` are what `EXTRACT(DOW ...)` and
   * `EXTRACT(HOUR ...)` make of `createdAt`; category and severity are the
   * already-coalesced values.
   */
  datatype Report = Report(
    id: int,
    latitude: real,
    longitude: real,
    category: string,
    severity: int,
    createdAt: int,
    dayOfWeek: int,
    hourOfDay: int)

  /** A report together with the DBSCAN label assigned to its row. */
  datatype Labelled = Labelled(report: Report, cluster: int)

  /** Assigning `clustering.labels_` as a column: the i-th label goes to the i-th row. */
  function Zip(reports: seq<Report>, labels: seq<int>): (items: seq<Labelled>)
    requires |labels| == |reports|
    ensures |items| == |reports|
    ensures forall i :: 0 <= i < |items| ==> items[i].report == reports[i] && items[i].cluster == labels[i]
  {
    seq(|reports|, i requires 0 <= i < |reports| => Labelled(reports[i], labels[i]))
  }

  function LabelOf(x: Labelled): int
  {
    x.cluster
  }

  function CategoryOf(x: Labelled): string
  {
    x.report.category
  }

  function ReportsOf(items: seq<Labelled>): (rs: seq<Report>)
    ensures |rs| == |items|
    ensures forall i :: 0 <= i < |rs| ==> rs[i] == items[i].report
  {
    seq(|items|, i requires 0 <= i < |items| => items[i].report)
  }

  function LabelsOf(items: seq<Labelled>): (ls: seq<int>)
    ensures |ls| == |items|
    ensures forall i :: 0 <= i < |ls| ==> ls[i] == items[i].cluster
  {
    seq(|items|, i requires 0 <= i < |items| => items[i].cluster)
  }

  lemma LabelOfMember(items: seq<Labelled>, x: Labelled)
    requires x in items
    ensures x.cluster in LabelsOf(items)
  {
  }

  // The columns of a group of reports, as pandas selects them.

  function Latitudes(g: seq<Report>): (xs: seq<real>)
    ensures |xs| == |g| && forall i :: 0 <= i < |g| ==> xs[i] == g[i].latitude
  {
    seq(|g|, i requires 0 <= i < |g| => g[i].latitude)
  }

  function Longitudes(g: seq<Report>): (xs: seq<real>)
    ensures |xs| == |g| && forall i :: 0 <= i < |g| ==> xs[i] == g[i].longitude
  {
    seq(|g|, i requires 0 <= i < |g| => g[i].longitude)
  }

  /** Severities as numbers to average. */
  function SeverityValues(g: seq<Report>): (xs: seq<real>)
    ensures |xs| == |g| && forall i :: 0 <= i < |g| ==> xs[i] == g[i].severity as real
  {
    seq(|g|, i requires 0 <= i < |g| => g[i].severity as real)
  }

  function Severities(g: seq<Report>): (xs: seq<int>)
    ensures |xs| == |g| && forall i :: 0 <= i < |g| ==> xs[i] == g[i].severity
  {
    seq(|g|, i requires 0 <= i < |g| => g[i].severity)
  }

  function Categories(g: seq<Report>): (xs: seq<string>)
    ensures |xs| == |g| && forall i :: 0 <= i < |g| ==> xs[i] == g[i].category
  {
    seq(|g|, i requires 0 <= i < |g| => g[i].category)
  }

  function Timestamps(g: seq<Report>): (xs: seq<int>)
    ensures |xs| == |g| && forall i :: 0 <= i < |g| ==> xs[i] == g[i].createdAt
  {
    seq(|g|, i requires 0 <= i < |g| => g[i].createdAt)
  }

  function Days(g: seq<Report>): (xs: seq<int>)
    ensures |xs| == |g| && forall i :: 0 <= i < |g| ==> xs[i] == g[i].dayOfWeek
  {
    seq(|g|, i requires 0 <= i < |g| => g[i].dayOfWeek)
  }

  function Hours(g: seq<Report>): (xs: seq<int>)
    ensures |xs| == |g| && forall i :: 0 <= i < |g| ==> xs[i] == g[i].hourOfDay
  {
    seq(|g|, i requires 0 <= i < |g| => g[i].hourOfDay)
  }
}
